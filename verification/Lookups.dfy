/** Path lookup with symbolic links (`lookupDepth` in node/internal/vfs/vfs.go). */
module Lookups {
  import opened Basics
  import opened Text
  import opened Paths
  import opened Trees

  datatype FsError =
    | NotFound | NotDir | IsDir | Permission | Exists | NotEmpty | LinkLoop | QuotaReached
    // The Go code would write to a nil map and panic.
    | NilMapWrite

  datatype Found = Found(id: Id) | Failed(error: FsError)

  const MAX_LINKS: nat := 16

  /** Resolution of a path from the root. Termination is by the number of links
      still allowed, then by the components still to walk. */
  function Lookup(t: Tree, p: string, follow: bool, depth: nat): (r: Found)
    requires Closed(t) && depth <= MAX_LINKS + 1
    ensures if r.Found? then r.id in t.nodes else r.error == NotFound || r.error == NotDir || r.error == LinkLoop
    decreases MAX_LINKS + 1 - depth, 1, 0
  {
    if depth > MAX_LINKS then Failed(LinkLoop) else LookupFrom(t, p, Components(p), follow, depth, t.root)
  }

  function LookupFrom(t: Tree, p: string, rest: seq<string>, follow: bool, depth: nat, cur: Id): (r: Found)
    requires Closed(t) && depth <= MAX_LINKS && cur in t.nodes
    ensures if r.Found? then r.id in t.nodes else r.error == NotFound || r.error == NotDir || r.error == LinkLoop
    decreases MAX_LINKS + 1 - depth, 0, |rest|
  {
    if rest == [] then Found(cur)
    else
      // Go resolves a link in mid-path against the directory of the whole path.
      var here := if t.nodes[cur].entry.kind == Symlink
                  then Lookup(t, Clean(Dir(p), t.nodes[cur].entry.target), true, depth + 1) else Found(cur);
      if here.Failed? then here
      else if t.nodes[here.id].entry.kind != Directory then Failed(NotDir)
      else if rest[0] !in t.nodes[here.id].children then Failed(NotFound)
      else
        var next := t.nodes[here.id].children[rest[0]];
        if |rest| == 1 && t.nodes[next].entry.kind == Symlink && follow
        then Lookup(t, Clean(Dir(Clean("/", p)), t.nodes[next].entry.target), true, depth + 1)
        else LookupFrom(t, p, rest[1..], follow, depth, next)
  }

  /** The loop of `lookupDepth`. */
  method LookupDepth(t: Tree, p: string, follow: bool, depth: nat) returns (r: Found)
    requires Closed(t) && depth <= MAX_LINKS + 1
    ensures r == Lookup(t, p, follow, depth)
    decreases MAX_LINKS + 1 - depth
  {
    hide Clean, Dir, Components;
    if depth > MAX_LINKS {
      return Failed(LinkLoop);
    }
    var cur, parts := t.root, Components(p);
    var i := 0;
    while i < |parts|
      invariant i <= |parts| && cur in t.nodes
      invariant Lookup(t, p, follow, depth) == LookupFrom(t, p, parts[i..], follow, depth, cur)
    {
      assert parts[i..][1..] == parts[i + 1..] && parts[i..][0] == parts[i];
      if t.nodes[cur].entry.kind == Symlink {
        var resolved := LookupDepth(t, Clean(Dir(p), t.nodes[cur].entry.target), true, depth + 1);
        if resolved.Failed? {
          return resolved;
        }
        cur := resolved.id;
      }
      if t.nodes[cur].entry.kind != Directory {
        return Failed(NotDir);
      }
      if parts[i] !in t.nodes[cur].children {
        return Failed(NotFound);
      }
      cur := t.nodes[cur].children[parts[i]];
      if i == |parts| - 1 && t.nodes[cur].entry.kind == Symlink && follow {
        r := LookupDepth(t, Clean(Dir(Clean("/", p)), t.nodes[cur].entry.target), true, depth + 1);
        return;
      }
      i := i + 1;
    }
    return Found(cur);
  }

  /** Whatever is found is reachable from the root. */
  lemma {:induction false} LookupReaches(t: Tree, p: string, follow: bool, depth: nat) returns (at: seq<string>)
    requires Closed(t) && depth <= MAX_LINKS + 1 && Lookup(t, p, follow, depth).Found?
    ensures At(t, at) == Some(Lookup(t, p, follow, depth).id)
    decreases MAX_LINKS + 1 - depth, 1, 0
  {
    at := LookupFromReaches(t, p, Components(p), follow, depth, t.root, []);
  }

  lemma {:induction false} LookupFromReaches(
    t: Tree, p: string, rest: seq<string>, follow: bool, depth: nat, cur: Id, curAt: seq<string>) returns (at: seq<string>)
    requires Closed(t) && depth <= MAX_LINKS && cur in t.nodes && At(t, curAt) == Some(cur)
    requires LookupFrom(t, p, rest, follow, depth, cur).Found?
    ensures At(t, at) == Some(LookupFrom(t, p, rest, follow, depth, cur).id)
    decreases MAX_LINKS + 1 - depth, 0, |rest|
  {
    hide Clean, Dir, Components, At;
    if rest == [] {
      at := curAt;
    } else {
      var here, hereAt := cur, curAt;
      if t.nodes[cur].entry.kind == Symlink {
        var target := Clean(Dir(p), t.nodes[cur].entry.target);
        here := Lookup(t, target, true, depth + 1).id;
        hereAt := LookupReaches(t, target, true, depth + 1);
      }
      var next := t.nodes[here].children[rest[0]];
      if |rest| == 1 && t.nodes[next].entry.kind == Symlink && follow {
        at := LookupReaches(t, Clean(Dir(Clean("/", p)), t.nodes[next].entry.target), true, depth + 1);
      } else {
        ChildAt(t, hereAt, here, rest[0]);
        at := LookupFromReaches(t, p, rest[1..], follow, depth, next, hereAt + [rest[0]]);
      }
    }
  }

  lemma ChildAt(t: Tree, at: seq<string>, d: Id, k: string)
    requires At(t, at) == Some(d) && d in t.nodes && k in t.nodes[d].children
    ensures At(t, at + [k]) == Some(t.nodes[d].children[k])
  {
    WalkConcat(t, t.root, at, [k]);
    WalkStep(t, d, k, []);
    assert [k] + [] == [k];
  }

  // ----- Paths without symbolic links.

  /** No entry on the way, the last included, is a symbolic link. */
  ghost predicate LinkFree(t: Tree, parts: seq<string>) {
    forall i :: 0 <= i <= |parts| && EntryAt(t, parts[..i]).Some? ==> EntryAt(t, parts[..i]).value.kind != Symlink
  }

  // ----- Links.

  /** Plain names separated by slashes, as `dash` is. */
  ghost predicate PlainTarget(target: string) {
    exists names :: TargetNames(target, names)
  }

  ghost predicate TargetNames(target: string, names: seq<string>) {
    names != [] && AllPlain(names) && target == Join(names, '/')
  }

  /** Every link has a target of plain names. */
  ghost predicate PlainLinks(t: Tree) {
    forall id :: id in t.nodes && t.nodes[id].entry.kind == Symlink ==> PlainTarget(t.nodes[id].entry.target)
  }

  /** No link in `u` is new or has a new target. */
  ghost predicate NoNewLinks(t: Tree, u: Tree) {
    forall id :: id in u.nodes && u.nodes[id].entry.kind == Symlink ==>
      id in t.nodes && t.nodes[id].entry.kind == Symlink && t.nodes[id].entry.target == u.nodes[id].entry.target
  }

  lemma NoNewLinksPlain(t: Tree, u: Tree)
    requires NoNewLinks(t, u)
    ensures PlainLinks(t) ==> PlainLinks(u)
  {
    hide PlainTarget;
  }

  // ----- Walking without links.

  /** Following names one by one, stopping at the first that is missing. */
  function PlainWalk(t: Tree, cur: Id, rest: seq<string>): Found
    requires Closed(t) && cur in t.nodes
    decreases |rest|
  {
    if rest == [] then Found(cur)
    else if t.nodes[cur].entry.kind != Directory then Failed(NotDir)
    else if rest[0] !in t.nodes[cur].children then Failed(NotFound)
    else PlainWalk(t, t.nodes[cur].children[rest[0]], rest[1..])
  }

  lemma {:induction false} LinkFreeFrom(
    t: Tree, p: string, parts: seq<string>, i: nat, follow: bool, depth: nat, cur: Id)
    requires Closed(t) && depth <= MAX_LINKS && cur in t.nodes && i <= |parts|
    requires LinkFree(t, parts) && At(t, parts[..i]) == Some(cur)
    ensures LookupFrom(t, p, parts[i..], follow, depth, cur) == PlainWalk(t, cur, parts[i..])
    decreases |parts| - i
  {
    hide At;
    assert EntryAt(t, parts[..i]) == Some(t.nodes[cur].entry);
    if i < |parts| && t.nodes[cur].entry.kind == Directory && parts[i] in t.nodes[cur].children {
      assert parts[i..][1..] == parts[i + 1..] && parts[..i + 1] == parts[..i] + [parts[i]];
      ChildAt(t, parts[..i], cur, parts[i]);
      var next := t.nodes[cur].children[parts[i]];
      assert EntryAt(t, parts[..i + 1]) == Some(t.nodes[next].entry);
      LinkFreeFrom(t, p, parts, i + 1, follow, depth, next);
    }
  }

  /** On a clean absolute path without links, lookup is a plain component walk. */
  lemma LinkFreeLookup(t: Tree, parts: seq<string>, follow: bool)
    requires Closed(t) && AllPlain(parts) && LinkFree(t, parts)
    ensures Lookup(t, Render(parts), follow, 0) == PlainWalk(t, t.root, parts)
  {
    ComponentsRender(parts);
    assert parts[0..] == parts && parts[..0] == [];
    assert At(t, []) == Some(t.root);
    LinkFreeFrom(t, Render(parts), parts, 0, follow, 0, t.root);
  }

  /** A plain walk succeeds exactly where the tree has a path, and fails with
      `NotDir` or `NotFound` otherwise. */
  lemma {:induction false} PlainWalkIsWalk(t: Tree, cur: Id, rest: seq<string>)
    requires Closed(t) && cur in t.nodes
    ensures Walk(t, cur, rest) == if PlainWalk(t, cur, rest).Found? then Some(PlainWalk(t, cur, rest).id) else None
    ensures PlainWalk(t, cur, rest).Failed? ==> PlainWalk(t, cur, rest).error in {NotDir, NotFound}
    decreases |rest|
  {
    if rest != [] && rest[0] in t.nodes[cur].children {
      PlainWalkIsWalk(t, t.nodes[cur].children[rest[0]], rest[1..]);
    }
  }
}
