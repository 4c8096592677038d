/** The four edits that filesystem operations make, and what each does to the
    entries that paths lead to. */
module TreeEdits {
  import opened Basics
  import opened Trees

  lemma Below(place: seq<string>, q: seq<string>)
    requires place <= q
    ensures q == place + q[|place|..]
  {
  }

  // ----- Planting a new childless node under a directory.

  function Link(t: Tree, d: Id, key: string, id: Id, entry: Entry): Tree
    requires d in t.nodes
  {
    var parent := t.nodes[d];
    t.(nodes := t.nodes[d := Node(parent.entry, parent.children[key := id])][id := Node(entry, map[])])
  }

  /** Exactly `place` and what was below it changed: a childless entry is there now. */
  ghost predicate Planted(t: Tree, u: Tree, place: seq<string>, entry: Entry) {
    forall q :: EntryAt(u, q) == if q == place then Some(entry) else if place <= q then None else EntryAt(t, q)
  }

  lemma LinkRewires(t: Tree, d: Id, key: string, id: Id, entry: Entry)
    requires d in t.nodes && id !in t.nodes
    ensures Rewired(t, Link(t, d, key, id, entry), d, key)
  {
    var before := t.nodes[d].children;
    assert before[key := id] - {key} == before - {key};
  }

  lemma LinkAt(t: Tree, at: seq<string>, d: Id, key: string, id: Id, entry: Entry, q: seq<string>)
    requires IsTree(t) && At(t, at) == Some(d) && d in t.nodes && id !in t.nodes
    ensures At(Link(t, d, key, id, entry), q) ==
      if q == at + [key] then Some(id) else if at + [key] <= q then None else At(t, q)
  {
    var u := Link(t, d, key, id, entry);
    LinkRewires(t, d, key, id, entry);
    if at + [key] <= q {
      Below(at + [key], q);
      RewiredBelow(t, u, at, d, key, q[|at| + 1..]);
    } else {
      RewiredElsewhere(t, u, at, d, key, q);
    }
  }

  lemma LinkClosed(t: Tree, d: Id, key: string, id: Id, entry: Entry)
    requires Closed(t) && d in t.nodes && t.nodes[d].entry.kind == Directory && id !in t.nodes
    ensures Closed(Link(t, d, key, id, entry))
  {
  }

  lemma LinkOnePath(t: Tree, at: seq<string>, d: Id, key: string, id: Id, entry: Entry)
    requires IsTree(t) && At(t, at) == Some(d) && d in t.nodes && id !in t.nodes
    ensures OnePathEach(Link(t, d, key, id, entry))
  {
    hide At, Link, NamedByKey, Closed;
    var u := Link(t, d, key, id, entry);
    forall p, q | At(u, p).Some? && At(u, p) == At(u, q) ensures p == q {
      LinkAt(t, at, d, key, id, entry, p);
      LinkAt(t, at, d, key, id, entry, q);
      if At(t, p).Some? { ReachedInNodes(t, p); }
      if At(t, q).Some? { ReachedInNodes(t, q); }
    }
  }

  lemma LinkEntryAt(t: Tree, at: seq<string>, d: Id, key: string, id: Id, entry: Entry, q: seq<string>)
    requires IsTree(t) && At(t, at) == Some(d) && d in t.nodes && id !in t.nodes
    ensures EntryAt(Link(t, d, key, id, entry), q) ==
      if q == at + [key] then Some(entry) else if at + [key] <= q then None else EntryAt(t, q)
  {
    hide At, OnePathEach, NamedByKey;
    LinkAt(t, at, d, key, id, entry, q);
    if At(t, q).Some? { ReachedInNodes(t, q); }
  }

  /** Names follow keys in `u` when every entry reached is named as it should be. */
  lemma NamedFromEntries(u: Tree)
    requires Closed(u)
    requires forall q :: q != [] && EntryAt(u, q).Some? ==> EntryAt(u, q).value.name == q[|q| - 1]
    ensures NamedByKey(u)
  {
    forall p | p != [] && At(u, p).Some?
      ensures At(u, p).value in u.nodes && u.nodes[At(u, p).value].entry.name == p[|p| - 1]
    {
      ReachedInNodes(u, p);
      assert EntryAt(u, p).Some?;
    }
  }

  lemma EntriesNamed(t: Tree, q: seq<string>)
    requires NamedByKey(t) && q != [] && EntryAt(t, q).Some?
    ensures EntryAt(t, q).value.name == q[|q| - 1]
  {
  }

  lemma LinkIsTree(t: Tree, at: seq<string>, d: Id, key: string, id: Id, entry: Entry)
    requires IsTree(t) && At(t, at) == Some(d) && d in t.nodes && t.nodes[d].entry.kind == Directory && id !in t.nodes
    requires entry.name == key
    ensures IsTree(Link(t, d, key, id, entry)) && Planted(t, Link(t, d, key, id, entry), at + [key], entry)
  {
    hide At, OnePathEach, NamedByKey, Closed, Link, EntryAt;
    var u := Link(t, d, key, id, entry);
    LinkClosed(t, d, key, id, entry);
    LinkOnePath(t, at, d, key, id, entry);
    forall q
      ensures EntryAt(u, q) == if q == at + [key] then Some(entry) else if at + [key] <= q then None else EntryAt(t, q)
      ensures q != [] && EntryAt(u, q).Some? ==> EntryAt(u, q).value.name == q[|q| - 1]
    {
      LinkEntryAt(t, at, d, key, id, entry, q);
      if q != [] && EntryAt(t, q).Some? { EntriesNamed(t, q); }
    }
    NamedFromEntries(u);
  }

  lemma ReachedInNodes(t: Tree, q: seq<string>)
    requires Closed(t) && At(t, q).Some?
    ensures At(t, q).value in t.nodes
  {
    WalkInNodes(t, t.root, q);
  }

  // ----- Unlinking a child.

  function Unlink(t: Tree, d: Id, key: string): (u: Tree)
    requires d in t.nodes
    ensures u.root == t.root
  {
    t.(nodes := t.nodes[d := Node(t.nodes[d].entry, t.nodes[d].children - {key})])
  }

  /** Exactly `place` and everything below it is gone. */
  ghost predicate Pruned(t: Tree, u: Tree, place: seq<string>) {
    forall q :: EntryAt(u, q) == if place <= q then None else EntryAt(t, q)
  }

  lemma UnlinkAt(t: Tree, at: seq<string>, d: Id, key: string, q: seq<string>)
    requires IsTree(t) && At(t, at) == Some(d) && d in t.nodes
    ensures At(Unlink(t, d, key), q) == if at + [key] <= q then None else At(t, q)
  {
    var u := Unlink(t, d, key);
    assert (t.nodes[d].children - {key}) - {key} == t.nodes[d].children - {key};
    assert Rewired(t, u, d, key);
    if at + [key] <= q {
      Below(at + [key], q);
      RewiredBelow(t, u, at, d, key, q[|at| + 1..]);
    } else {
      RewiredElsewhere(t, u, at, d, key, q);
    }
  }

  lemma UnlinkOnePath(t: Tree, at: seq<string>, d: Id, key: string)
    requires IsTree(t) && At(t, at) == Some(d) && d in t.nodes
    ensures OnePathEach(Unlink(t, d, key))
  {
    hide At, Unlink, NamedByKey, Closed;
    var u := Unlink(t, d, key);
    forall p, q | At(u, p).Some? && At(u, p) == At(u, q) ensures p == q {
      UnlinkAt(t, at, d, key, p);
      UnlinkAt(t, at, d, key, q);
    }
  }

  lemma UnlinkEntries(t: Tree, d: Id, key: string)
    requires d in t.nodes
    ensures Unlink(t, d, key).nodes.Keys == t.nodes.Keys
    ensures forall id :: id in t.nodes ==> Unlink(t, d, key).nodes[id].entry == t.nodes[id].entry
  {
  }

  lemma UnlinkClosed(t: Tree, d: Id, key: string)
    requires Closed(t) && d in t.nodes
    ensures Closed(Unlink(t, d, key))
  {
  }

  lemma UnlinkEntryAt(t: Tree, at: seq<string>, d: Id, key: string, q: seq<string>)
    requires IsTree(t) && At(t, at) == Some(d) && d in t.nodes
    ensures EntryAt(Unlink(t, d, key), q) == if at + [key] <= q then None else EntryAt(t, q)
  {
    hide At, OnePathEach, NamedByKey, Closed;
    UnlinkAt(t, at, d, key, q);
  }

  lemma UnlinkIsTree(t: Tree, at: seq<string>, d: Id, key: string)
    requires IsTree(t) && At(t, at) == Some(d) && d in t.nodes
    ensures IsTree(Unlink(t, d, key)) && Pruned(t, Unlink(t, d, key), at + [key])
  {
    hide At, OnePathEach, NamedByKey, Closed, Unlink, EntryAt;
    var u := Unlink(t, d, key);
    UnlinkClosed(t, d, key);
    UnlinkOnePath(t, at, d, key);
    forall q
      ensures EntryAt(u, q) == if at + [key] <= q then None else EntryAt(t, q)
      ensures q != [] && EntryAt(u, q).Some? ==> EntryAt(u, q).value.name == q[|q| - 1]
    {
      UnlinkEntryAt(t, at, d, key, q);
      if q != [] && EntryAt(t, q).Some? { EntriesNamed(t, q); }
    }
    NamedFromEntries(u);
  }

  // ----- Changing a node's data but not its name, kind or links.

  function Retouch(t: Tree, id: Id, entry: Entry): Tree
    requires id in t.nodes
  {
    t.(nodes := t.nodes[id := Node(entry, t.nodes[id].children)])
  }

  ghost predicate Retouched(t: Tree, u: Tree, place: seq<string>, entry: Entry) {
    forall q :: EntryAt(u, q) == if q == place then Some(entry) else EntryAt(t, q)
  }

  lemma {:induction false} RetouchWalk(t: Tree, id: Id, entry: Entry, start: Id, q: seq<string>)
    requires id in t.nodes
    ensures Walk(Retouch(t, id, entry), start, q) == Walk(t, start, q)
    decreases |q|
  {
    if q != [] && start in t.nodes && q[0] in t.nodes[start].children {
      RetouchWalk(t, id, entry, t.nodes[start].children[q[0]], q[1..]);
    }
  }

  lemma RetouchIsTree(t: Tree, place: seq<string>, id: Id, entry: Entry)
    requires IsTree(t) && At(t, place) == Some(id) && id in t.nodes
    requires entry.name == t.nodes[id].entry.name && entry.kind == t.nodes[id].entry.kind
    ensures IsTree(Retouch(t, id, entry)) && Retouched(t, Retouch(t, id, entry), place, entry)
  {
    hide Walk;
    var u := Retouch(t, id, entry);
    forall q ensures At(u, q) == At(t, q) {
      RetouchWalk(t, id, entry, t.root, q);
    }
  }

  // ----- Moving a child.

  function Renamed(e: Entry, name: string): Entry {
    e.(name := name, attackerWritten := true)
  }

  /** `Rename`: unlink from one directory, rename, link under another. */
  function Move(t: Tree, f: Id, a: string, d: Id, b: string): (u: Tree)
    requires f in t.nodes && d in t.nodes && a in t.nodes[f].children && t.nodes[f].children[a] in t.nodes
    ensures u.root == t.root
  {
    var n := t.nodes[f].children[a];
    var cut := Unlink(t, f, a);
    var renamed := Retouch(cut, n, Renamed(cut.nodes[n].entry, b));
    renamed.(nodes := renamed.nodes[d := Node(renamed.nodes[d].entry, renamed.nodes[d].children[b := n])])
  }

  /** The subtree at `from` is now at `to` and nowhere else, in place of what was
      there, its top entry renamed; every other path leads where it led. */
  ghost predicate Moved(t: Tree, u: Tree, from: seq<string>, to: seq<string>)
    requires to != []
  {
    forall q :: EntryAt(u, q) ==
      if q == to then (if EntryAt(t, from).Some? then Some(Renamed(EntryAt(t, from).value, to[|to| - 1])) else None)
      else if to <= q then EntryAt(t, from + q[|to|..])
      else if from <= q then None
      else EntryAt(t, q)
  }

  /** The preconditions a move shares: the two directories and the child between them. */
  ghost predicate Movable(t: Tree, fa: seq<string>, f: Id, a: string, n: Id, da: seq<string>, d: Id) {
    && IsTree(t)
    && At(t, fa) == Some(f) && f in t.nodes && a in t.nodes[f].children && t.nodes[f].children[a] == n && n in t.nodes
    && At(t, da) == Some(d) && d in t.nodes
  }

  lemma MovedChildAt(t: Tree, fa: seq<string>, f: Id, a: string, n: Id, da: seq<string>, d: Id, r: seq<string>)
    requires Movable(t, fa, f, a, n, da, d)
    ensures At(t, fa + [a] + r) == Walk(t, n, r)
  {
    hide Walk, IsTree;
    assert fa + [a] + r == fa + ([a] + r);
    WalkConcat(t, t.root, fa, [a] + r);
    WalkStep(t, f, a, r);
  }

  /** The links of every node after a move. */
  lemma MoveChildren(t: Tree, f: Id, a: string, n: Id, d: Id, b: string)
    requires f in t.nodes && d in t.nodes && n in t.nodes && a in t.nodes[f].children && t.nodes[f].children[a] == n
    ensures var u, cut := Move(t, f, a, d, b), Unlink(t, f, a);
            && u.nodes.Keys == cut.nodes.Keys == t.nodes.Keys
            && (forall id :: id in t.nodes && id != d ==> u.nodes[id].children == cut.nodes[id].children)
            && (forall id :: id in t.nodes && id != f ==> cut.nodes[id].children == t.nodes[id].children)
            && u.nodes[d].children == cut.nodes[d].children[b := n]
  {
  }

  lemma MoveRewires(t: Tree, fa: seq<string>, f: Id, a: string, n: Id, da: seq<string>, d: Id, b: string)
    requires Movable(t, fa, f, a, n, da, d)
    ensures var u := Move(t, f, a, d, b);
            && Rewired(Unlink(t, f, a), u, d, b)
            && u.nodes[d].children == Unlink(t, f, a).nodes[d].children[b := n]
            && SameLinks(t, u, {f, d}) && SameLinks(Unlink(t, f, a), u, {d})
  {
    hide IsTree, At, Move, Unlink;
    MoveChildren(t, f, a, n, d, b);
    var cut := Unlink(t, f, a);
    var before := cut.nodes[d].children;
    assert before[b := n] - {b} == before - {b};
  }

  lemma MoveEntries(t: Tree, fa: seq<string>, f: Id, a: string, n: Id, da: seq<string>, d: Id, b: string)
    requires Movable(t, fa, f, a, n, da, d)
    ensures var u := Move(t, f, a, d, b);
            && u.nodes.Keys == t.nodes.Keys
            && (forall id :: id in t.nodes ==>
                  u.nodes[id].entry == if id == n then Renamed(t.nodes[n].entry, b) else t.nodes[id].entry)
  {
    hide IsTree, At;
  }

  /** Inside the moved subtree nothing changes, unless the new parent is in it. */
  lemma MovedSubtree(t: Tree, fa: seq<string>, f: Id, a: string, n: Id, da: seq<string>, d: Id, b: string, r: seq<string>)
    requires Movable(t, fa, f, a, n, da, d) && !(fa + [a] <= da)
    ensures Walk(Move(t, f, a, d, b), n, r) == Walk(t, n, r)
  {
    hide Walk, Closed, NamedByKey, Move, SameLinks, Rewired, Unlink;
    var u := Move(t, f, a, d, b);
    MoveRewires(t, fa, f, a, n, da, d, b);
    forall i | 0 <= i < |r| && Walk(t, n, r[..i]).Some? ensures Walk(t, n, r[..i]).value !in {f, d} {
      MovedChildAt(t, fa, f, a, n, da, d, r[..i]);
      assert fa + [a] <= fa + [a] + r[..i];
      assert At(t, fa + [a] + r[..i]).Some?;
    }
    WalkAvoids(t, u, {f, d}, n, r);
  }

  /** Where paths lead after a move whose target is not inside what is moved. */
  lemma MoveAt(t: Tree, fa: seq<string>, f: Id, a: string, n: Id, da: seq<string>, d: Id, b: string, q: seq<string>)
    requires Movable(t, fa, f, a, n, da, d) && !(fa + [a] <= da)
    ensures At(Move(t, f, a, d, b), q) ==
      if da + [b] <= q then At(t, fa + [a] + q[|da| + 1..]) else if fa + [a] <= q then None else At(t, q)
  {
    hide Walk, IsTree, At, Move, SameLinks, Rewired, Unlink;
    var u, cut := Move(t, f, a, d, b), Unlink(t, f, a);
    MoveRewires(t, fa, f, a, n, da, d, b);
    UnlinkIsTree(t, fa, f, a);
    UnlinkAt(t, fa, f, a, da);
    UnlinkAt(t, fa, f, a, q);
    if da + [b] <= q {
      var r := q[|da| + 1..];
      Below(da + [b], q);
      RewiredBelow(cut, u, da, d, b, r);
      MovedSubtree(t, fa, f, a, n, da, d, b, r);
      MovedChildAt(t, fa, f, a, n, da, d, r);
    } else {
      RewiredElsewhere(cut, u, da, d, b, q);
    }
  }

  /** Where paths lead after a directory is moved beneath itself: it is detached. */
  lemma SelfMoveAt(t: Tree, fa: seq<string>, f: Id, a: string, n: Id, da: seq<string>, d: Id, b: string, q: seq<string>)
    requires Movable(t, fa, f, a, n, da, d) && fa + [a] <= da
    ensures At(Move(t, f, a, d, b), q) == if fa + [a] <= q then None else At(t, q)
  {
    hide Walk, Closed, NamedByKey, Move, SameLinks, Rewired, Unlink;
    var u, cut := Move(t, f, a, d, b), Unlink(t, f, a);
    MoveRewires(t, fa, f, a, n, da, d, b);
    UnlinkAt(t, fa, f, a, q);
    assert cut.root == t.root == u.root;
    forall i | 0 <= i < |q| && Walk(cut, cut.root, q[..i]).Some? ensures Walk(cut, cut.root, q[..i]).value !in {d} {
      UnlinkAt(t, fa, f, a, q[..i]);
      assert At(cut, q[..i]).Some?;
    }
    WalkAvoids(cut, u, {d}, cut.root, q);
  }

  lemma MoveClosed(t: Tree, fa: seq<string>, f: Id, a: string, n: Id, da: seq<string>, d: Id, b: string)
    requires Movable(t, fa, f, a, n, da, d) && t.nodes[d].entry.kind == Directory
    ensures Closed(Move(t, f, a, d, b))
  {
    hide At, OnePathEach, NamedByKey, Move, Unlink, SameLinks;
    UnlinkClosed(t, f, a);
    MoveRewires(t, fa, f, a, n, da, d, b);
    MoveEntries(t, fa, f, a, n, da, d, b);
    UnlinkEntries(t, f, a);
  }

  lemma MoveOnePath(t: Tree, fa: seq<string>, f: Id, a: string, n: Id, da: seq<string>, d: Id, b: string)
    requires Movable(t, fa, f, a, n, da, d)
    ensures OnePathEach(Move(t, f, a, d, b))
  {
    hide At, Move, Closed, NamedByKey;
    var u, from, to := Move(t, f, a, d, b), fa + [a], da + [b];
    forall p, q | At(u, p).Some? && At(u, p) == At(u, q) ensures p == q {
      if from <= da {
        SelfMoveAt(t, fa, f, a, n, da, d, b, p);
        SelfMoveAt(t, fa, f, a, n, da, d, b, q);
      } else {
        MoveAt(t, fa, f, a, n, da, d, b, p);
        MoveAt(t, fa, f, a, n, da, d, b, q);
        if to <= p { Below(to, p); }
        if to <= q { Below(to, q); }
        assert forall r: seq<string> :: from <= from + r && (from + r)[|from|..] == r;
      }
    }
  }

  /** Entries are as before, except that the moved node's is renamed. */
  lemma MoveEntry(t: Tree, fa: seq<string>, f: Id, a: string, n: Id, da: seq<string>, d: Id, b: string, q: seq<string>, p: seq<string>)
    requires Movable(t, fa, f, a, n, da, d) && At(Move(t, f, a, d, b), q) == At(t, p)
    ensures p != fa + [a] ==> EntryAt(Move(t, f, a, d, b), q) == EntryAt(t, p)
    ensures p == fa + [a] ==> EntryAt(t, p).Some? && EntryAt(Move(t, f, a, d, b), q) == Some(Renamed(EntryAt(t, p).value, b))
  {
    hide Move, Closed, NamedByKey, Unlink, SameLinks, Rewired, Walk;
    MoveEntries(t, fa, f, a, n, da, d, b);
    MovedChildAt(t, fa, f, a, n, da, d, []);
    assert fa + [a] + [] == fa + [a];
    WalkNone(t, n);
    if At(t, p).Some? {
      ReachedInNodes(t, p);
    }
  }

  lemma WalkNone(t: Tree, start: Id)
    ensures Walk(t, start, []) == Some(start)
  {
  }

  lemma MoveEntryAt(t: Tree, fa: seq<string>, f: Id, a: string, n: Id, da: seq<string>, d: Id, b: string, q: seq<string>)
    requires Movable(t, fa, f, a, n, da, d) && !(fa + [a] <= da)
    ensures EntryAt(t, fa + [a]).Some?
    ensures EntryAt(Move(t, f, a, d, b), q) ==
      if q == da + [b] then Some(Renamed(EntryAt(t, fa + [a]).value, b))
      else if da + [b] <= q then EntryAt(t, fa + [a] + q[|da| + 1..])
      else if fa + [a] <= q then None
      else EntryAt(t, q)
  {
    hide Walk, IsTree, At, Move, SameLinks, Rewired, Unlink;
    MoveAt(t, fa, f, a, n, da, d, b, q);
    MoveAt(t, fa, f, a, n, da, d, b, da + [b]);
    assert (da + [b])[|da| + 1..] == [] && fa + [a] + [] == fa + [a];
    MoveEntry(t, fa, f, a, n, da, d, b, da + [b], fa + [a]);
    if da + [b] <= q {
      Below(da + [b], q);
      var r := q[|da| + 1..];
      assert r != [] ==> fa + [a] + r != fa + [a];
      assert r == [] ==> q == da + [b];
      MoveEntry(t, fa, f, a, n, da, d, b, q, fa + [a] + r);
    } else if !(fa + [a] <= q) {
      MoveEntry(t, fa, f, a, n, da, d, b, q, q);
    }
  }

  lemma SelfMoveEntryAt(t: Tree, fa: seq<string>, f: Id, a: string, n: Id, da: seq<string>, d: Id, b: string, q: seq<string>)
    requires Movable(t, fa, f, a, n, da, d) && fa + [a] <= da
    ensures EntryAt(Move(t, f, a, d, b), q) == if fa + [a] <= q then None else EntryAt(t, q)
  {
    hide Walk, IsTree, At, Move, SameLinks, Rewired, Unlink;
    SelfMoveAt(t, fa, f, a, n, da, d, b, q);
    if !(fa + [a] <= q) {
      MoveEntry(t, fa, f, a, n, da, d, b, q, q);
    }
  }

  /** A move keeps the tree a tree. Beneath itself a directory is detached;
      anywhere else the subtree changes place and nothing else changes. */
  lemma MoveIsTree(t: Tree, fa: seq<string>, f: Id, a: string, n: Id, da: seq<string>, d: Id, b: string)
    requires Movable(t, fa, f, a, n, da, d) && t.nodes[d].entry.kind == Directory
    ensures IsTree(Move(t, f, a, d, b))
    ensures if fa + [a] <= da then Pruned(t, Move(t, f, a, d, b), fa + [a])
            else Moved(t, Move(t, f, a, d, b), fa + [a], da + [b])
  {
    hide Walk, At, Move, Closed, OnePathEach, NamedByKey, EntryAt;
    var u, from, to := Move(t, f, a, d, b), fa + [a], da + [b];
    MoveClosed(t, fa, f, a, n, da, d, b);
    MoveOnePath(t, fa, f, a, n, da, d, b);
    forall q | q != [] && EntryAt(u, q).Some? ensures EntryAt(u, q).value.name == q[|q| - 1] {
      if from <= da {
        SelfMoveEntryAt(t, fa, f, a, n, da, d, b, q);
        EntriesNamed(t, q);
      } else {
        MoveEntryAt(t, fa, f, a, n, da, d, b, q);
        if to <= q {
          Below(to, q);
          if q != to { EntriesNamed(t, from + q[|to|..]); }
        } else {
          EntriesNamed(t, q);
        }
      }
    }
    NamedFromEntries(u);
    if from <= da {
      forall q ensures EntryAt(u, q) == if from <= q then None else EntryAt(t, q) {
        SelfMoveEntryAt(t, fa, f, a, n, da, d, b, q);
      }
    } else {
      MoveEntryAt(t, fa, f, a, n, da, d, b, from);
      forall q ensures EntryAt(u, q) ==
        if q == to then Some(Renamed(EntryAt(t, from).value, b))
        else if to <= q then EntryAt(t, from + q[|to|..])
        else if from <= q then None
        else EntryAt(t, q)
      {
        MoveEntryAt(t, fa, f, a, n, da, d, b, q);
      }
    }
  }
}
