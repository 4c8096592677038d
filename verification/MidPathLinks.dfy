/** A symbolic link in the middle of a path. The lookup of node/internal/vfs/vfs.go
    resolves it against the directory of the whole path, not of the link. */
module MidPathLinks {
  import opened Basics
  import opened Text
  import opened Paths
  import opened Trees
  import opened Lookups

  // ----- Path algebra.

  lemma PlainParts(a: seq<string>, b: seq<string>)
    requires AllPlain(a + b)
    ensures AllPlain(a) && AllPlain(b)
  {
    assert forall i :: 0 <= i < |a| ==> a[i] == (a + b)[i];
    assert forall i :: 0 <= i < |b| ==> b[i] == (a + b)[|a| + i];
  }

  /** Plain names joined by slashes, taken relative to a clean directory. */
  lemma CleanRelative(cwd: seq<string>, names: seq<string>)
    requires cwd != [] && names != [] && AllPlain(cwd) && AllPlain(names)
    ensures Clean(Render(cwd), Join(names, '/')) == Render(cwd + names)
  {
    hide PathClean, Join, Plain;
    JoinStartsPlain(names);
    RenderConcat(cwd, names);
    CleanRender(cwd + names);
  }

  lemma RenderConcat(cwd: seq<string>, names: seq<string>)
    requires cwd != [] && names != []
    ensures Render(cwd) + "/" + Join(names, '/') == Render(cwd + names)
  {
    hide Join;
    JoinAppend(cwd, names);
  }

  lemma JoinStartsPlain(names: seq<string>)
    requires names != [] && AllPlain(names)
    ensures Join(names, '/') != "" && Join(names, '/')[0] != '/'
  {
    assert Plain(names[0]) && names[0][0] in names[0];
  }

  /** An absolute path is cleaned the same way from everywhere. */
  lemma CleanAbsolute(cwd: string, p: string)
    requires p != "" && p[0] == '/'
    ensures Clean(cwd, p) == Clean("/", p)
  {
  }

  // ----- Walking down to the link.

  /** A lookup that meets no link on the first `n` names stands where those lead. */
  lemma {:induction false} WalkDown(t: Tree, p: string, parts: seq<string>, i: nat, n: nat, follow: bool, depth: nat, cur: Id, at: Id)
    requires Closed(t) && depth <= MAX_LINKS && i <= n < |parts| && cur in t.nodes && at in t.nodes
    requires At(t, parts[..i]) == Some(cur) && At(t, parts[..n]) == Some(at)
    requires forall j :: i <= j < n && EntryAt(t, parts[..j]).Some? ==> EntryAt(t, parts[..j]).value.kind != Symlink
    ensures LookupFrom(t, p, parts[i..], follow, depth, cur) == LookupFrom(t, p, parts[n..], follow, depth, at)
    decreases n - i
  {
    hide At;
    if i < n {
      assert parts[..n] == parts[..i] + parts[i..n];
      Descend(t, parts[..i], cur, parts[i..n]);
      assert parts[i..n][0] == parts[i] && parts[..i] + [parts[i]] == parts[..i + 1];
      ChildAt(t, parts[..i], cur, parts[i]);
      var next := t.nodes[cur].children[parts[i]];
      assert EntryAt(t, parts[..i]) == Some(t.nodes[cur].entry);
      assert parts[i..][1..] == parts[i + 1..];
      WalkDown(t, p, parts, i + 1, n, follow, depth, next, at);
      if i + 1 < n {
        assert EntryAt(t, parts[..i + 1]) == Some(t.nodes[next].entry);
      }
    }
  }

  /** A path that goes on from a node goes through one of its children. */
  lemma Descend(t: Tree, at: seq<string>, cur: Id, more: seq<string>)
    requires Closed(t) && At(t, at) == Some(cur) && cur in t.nodes && At(t, at + more).Some? && more != []
    ensures more[0] in t.nodes[cur].children && t.nodes[cur].entry.kind == Directory
  {
    WalkConcat(t, t.root, at, more);
  }

  /** `pre` leads through no link to a directory that files a link under `k`. */
  ghost predicate LeadsToLink(t: Tree, pre: seq<string>, k: string, link: Id)
    requires Closed(t)
  {
    && LinkFree(t, pre) && At(t, pre).Some? && At(t, pre).value in t.nodes
    && k in t.nodes[At(t, pre).value].children && t.nodes[At(t, pre).value].children[k] == link
    && t.nodes[link].entry.kind == Symlink
  }

  /** What a mid-path link does to a lookup, whatever its target. */
  lemma MidPathLink(t: Tree, pre: seq<string>, k: string, link: Id, rest: seq<string>, follow: bool, depth: nat)
    requires Closed(t) && depth <= MAX_LINKS && LeadsToLink(t, pre, k, link)
    requires rest != [] && AllPlain(pre + [k] + rest)
    ensures var p := Render(pre + [k] + rest);
            var here := Lookup(t, Clean(Dir(p), t.nodes[link].entry.target), true, depth + 1);
            Lookup(t, p, follow, depth) == if here.Failed? then here else LookupFrom(t, p, rest, follow, depth, here.id)
  {
    hide At, Clean, Dir, Components, Render, Lookup;
    var parts := pre + [k] + rest;
    var p := Render(parts);
    ComponentsRender(parts);
    var n := |pre| + 1;
    assert parts[..0] == [] && parts[0..] == parts && parts[n..] == rest && parts[..n] == pre + [k];
    RootAt(t);
    ChildAt(t, pre, At(t, pre).value, k);
    forall j | 0 <= j < n && EntryAt(t, parts[..j]).Some? ensures EntryAt(t, parts[..j]).value.kind != Symlink {
      assert parts[..j] == pre[..j];
    }
    WalkDown(t, p, parts, 0, n, follow, depth, t.root, link);
    LookupUnfolds(t, p, follow, depth);
    LinkUnfolds(t, p, rest, follow, depth, link);
  }

  lemma RootAt(t: Tree)
    ensures At(t, []) == Some(t.root)
  {
  }

  lemma LookupUnfolds(t: Tree, p: string, follow: bool, depth: nat)
    requires Closed(t) && depth <= MAX_LINKS
    ensures Lookup(t, p, follow, depth) == LookupFrom(t, p, Components(p), follow, depth, t.root)
  {
  }

  lemma LinkUnfolds(t: Tree, p: string, rest: seq<string>, follow: bool, depth: nat, link: Id)
    requires Closed(t) && depth <= MAX_LINKS && link in t.nodes && rest != [] && t.nodes[link].entry.kind == Symlink
    ensures var here := Lookup(t, Clean(Dir(p), t.nodes[link].entry.target), true, depth + 1);
            LookupFrom(t, p, rest, follow, depth, link) ==
              if here.Failed? then here else LookupFrom(t, p, rest, follow, depth, here.id)
  {
    hide Clean, Dir;
    var here := Lookup(t, Clean(Dir(p), t.nodes[link].entry.target), true, depth + 1);
    if here.Found? {
      FollowedIsNoLink(t, Clean(Dir(p), t.nodes[link].entry.target), depth + 1);
    }
  }

  /** A lookup that follows links never ends on one. */
  lemma {:induction false} FollowedIsNoLink(t: Tree, p: string, depth: nat)
    requires Closed(t) && depth <= MAX_LINKS + 1 && Lookup(t, p, true, depth).Found?
    ensures t.nodes[Lookup(t, p, true, depth).id].entry.kind != Symlink
    decreases MAX_LINKS + 1 - depth, 1, 0
  {
    FollowedFromIsNoLink(t, p, Components(p), depth, t.root);
  }

  lemma {:induction false} FollowedFromIsNoLink(t: Tree, p: string, rest: seq<string>, depth: nat, cur: Id)
    requires Closed(t) && depth <= MAX_LINKS && cur in t.nodes
    requires rest == [] ==> t.nodes[cur].entry.kind != Symlink
    requires LookupFrom(t, p, rest, true, depth, cur).Found?
    ensures t.nodes[LookupFrom(t, p, rest, true, depth, cur).id].entry.kind != Symlink
    decreases MAX_LINKS + 1 - depth, 0, |rest|
  {
    hide Clean, Dir, Components;
    if rest != [] {
      var here := if t.nodes[cur].entry.kind == Symlink
                  then Lookup(t, Clean(Dir(p), t.nodes[cur].entry.target), true, depth + 1).id else cur;
      var next := t.nodes[here].children[rest[0]];
      if |rest| == 1 && t.nodes[next].entry.kind == Symlink {
        FollowedIsNoLink(t, Clean(Dir(Clean("/", p)), t.nodes[next].entry.target), depth + 1);
      } else {
        FollowedFromIsNoLink(t, p, rest[1..], depth, next);
      }
    }
  }

  // ----- Relative targets.

  /** The directory of a path through the link, and the target taken from there:
      the link again, with more names behind it. */
  lemma TargetFromWholePath(pre: seq<string>, k: string, rest: seq<string>, names: seq<string>)
    requires rest != [] && names != [] && AllPlain(pre + [k] + rest) && AllPlain(names)
    ensures var longer := rest[..|rest| - 1] + names;
            && Clean(Dir(Render(pre + [k] + rest)), Join(names, '/')) == Render(pre + [k] + longer)
            && longer != [] && AllPlain(pre + [k] + longer)
  {
    hide Clean, Dir, Render, Join;
    var front, last := rest[..|rest| - 1], rest[|rest| - 1];
    var cwd := pre + [k] + front;
    assert pre + [k] + rest == cwd + [last];
    PlainParts(cwd, [last]);
    DirBase(cwd, last);
    CleanRelative(cwd, names);
    assert cwd + names == pre + [k] + (front + names);
  }

  /** A link whose target is plain names, used as a directory anywhere in a path,
      is resolved through itself until the limit is hit. */
  lemma {:induction false} RelativeLinkLoops(
    t: Tree, pre: seq<string>, k: string, link: Id, names: seq<string>, rest: seq<string>, follow: bool, depth: nat)
    requires Closed(t) && depth <= MAX_LINKS + 1 && LeadsToLink(t, pre, k, link)
    requires names != [] && AllPlain(names) && t.nodes[link].entry.target == Join(names, '/')
    requires rest != [] && AllPlain(pre + [k] + rest)
    ensures Lookup(t, Render(pre + [k] + rest), follow, depth) == Failed(LinkLoop)
    decreases MAX_LINKS + 1 - depth
  {
    hide At, Clean, Dir, Components, Render, Join, LookupFrom, LeadsToLink;
    if depth <= MAX_LINKS {
      MidPathLink(t, pre, k, link, rest, follow, depth);
      TargetFromWholePath(pre, k, rest, names);
      RelativeLinkLoops(t, pre, k, link, names, rest[..|rest| - 1] + names, true, depth + 1);
    }
  }

  // ----- Absolute targets.

  /** A link with an absolute target stands for its target, and the lookup goes on
      from there. */
  lemma AbsoluteLinkResolves(
    t: Tree, pre: seq<string>, k: string, link: Id, names: seq<string>, rest: seq<string>, follow: bool, depth: nat)
    requires Closed(t) && depth <= MAX_LINKS && LeadsToLink(t, pre, k, link)
    requires var target := t.nodes[link].entry.target; target != "" && target[0] == '/' && Clean("/", target) == Render(names)
    requires rest != [] && AllPlain(pre + [k] + rest)
    ensures var p := Render(pre + [k] + rest);
            var here := Lookup(t, Render(names), true, depth + 1);
            Lookup(t, p, follow, depth) == if here.Failed? then here else LookupFrom(t, p, rest, follow, depth, here.id)
  {
    hide At, Clean, Dir, Components, Render, Lookup, LookupFrom, LinkFree;
    MidPathLink(t, pre, k, link, rest, follow, depth);
    CleanAbsolute(Dir(Render(pre + [k] + rest)), t.nodes[link].entry.target);
  }

  lemma {:induction false} PlainWalkConcat(t: Tree, cur: Id, a: seq<string>, b: seq<string>)
    requires Closed(t) && cur in t.nodes
    ensures PlainWalk(t, cur, a).Found? ==> PlainWalk(t, cur, a).id in t.nodes
    ensures PlainWalk(t, cur, a + b) ==
      if PlainWalk(t, cur, a).Failed? then PlainWalk(t, cur, a) else PlainWalk(t, PlainWalk(t, cur, a).id, b)
    decreases |a|
  {
    if a == [] {
      assert a + b == b;
    } else {
      assert (a + b)[1..] == a[1..] + b;
      if t.nodes[cur].entry.kind == Directory && a[0] in t.nodes[cur].children {
        PlainWalkConcat(t, t.nodes[cur].children[a[0]], a[1..], b);
      }
    }
  }

  lemma LinkFreePrefix(t: Tree, a: seq<string>, b: seq<string>)
    requires LinkFree(t, a + b)
    ensures LinkFree(t, a)
  {
    forall i | 0 <= i <= |a| && EntryAt(t, a[..i]).Some? ensures EntryAt(t, a[..i]).value.kind != Symlink {
      assert a[..i] == (a + b)[..i];
    }
  }

  /** Where the target and the rest meet no further link, that is a plain walk. */
  lemma AbsoluteLinkWalks(
    t: Tree, pre: seq<string>, k: string, link: Id, names: seq<string>, rest: seq<string>, follow: bool, depth: nat)
    requires Closed(t) && depth < MAX_LINKS && LeadsToLink(t, pre, k, link)
    requires var target := t.nodes[link].entry.target; target != "" && target[0] == '/' && Clean("/", target) == Render(names)
    requires rest != [] && AllPlain(pre + [k] + rest) && AllPlain(names) && LinkFree(t, names + rest)
    ensures Lookup(t, Render(pre + [k] + rest), follow, depth) == PlainWalk(t, t.root, names + rest)
  {
    hide At, Clean, Dir, Components, Render, Lookup, LookupFrom, LeadsToLink, LinkFree, PlainWalk;
    var p := Render(pre + [k] + rest);
    AbsoluteLinkResolves(t, pre, k, link, names, rest, follow, depth);
    LinkFreePrefix(t, names, rest);
    LinkFreeLookupAt(t, names, true, depth + 1);
    PlainWalkConcat(t, t.root, names, rest);
    PlainWalkIsWalk(t, t.root, names);
    var here := PlainWalk(t, t.root, names);
    if here.Found? {
      var all := names + rest;
      assert all[..|names|] == names && all[|names|..] == rest;
      WalkIsAt(t, names);
      LinkFreeFrom(t, p, all, |names|, follow, depth, here.id);
    }
  }

  lemma WalkIsAt(t: Tree, parts: seq<string>)
    ensures Walk(t, t.root, parts) == At(t, parts)
  {
  }

  lemma LinkFreeLookupAt(t: Tree, parts: seq<string>, follow: bool, depth: nat)
    requires Closed(t) && AllPlain(parts) && LinkFree(t, parts) && depth <= MAX_LINKS
    ensures Lookup(t, Render(parts), follow, depth) == PlainWalk(t, t.root, parts)
  {
    hide LookupFrom, Render, Components, LinkFree;
    ComponentsRender(parts);
    assert parts[0..] == parts && parts[..0] == [];
    RootAt(t);
    LinkFreeFrom(t, Render(parts), parts, 0, follow, depth, t.root);
  }

  // ----- One link, exactly.

  /** What the link stands for: its target if that is absolute, and otherwise its
      target beside it. */
  function Meant(pre: seq<string>, target: string, names: seq<string>): seq<string> {
    if target != "" && target[0] == '/' then names else pre + names
  }

  /** The target is these plain names, absolute or not. */
  predicate TargetIs(target: string, names: seq<string>) {
    && AllPlain(names)
    && if target != "" && target[0] == '/' then Clean("/", target) == Render(names)
       else names != [] && target == Join(names, '/')
  }

  /** A path through one link leads where the link is meant to lead if and only if
      the target is absolute. */
  lemma MidPathLinkIff(t: Tree, pre: seq<string>, k: string, link: Id, names: seq<string>, rest: seq<string>, follow: bool)
    requires Closed(t) && LeadsToLink(t, pre, k, link) && TargetIs(t.nodes[link].entry.target, names)
    requires rest != [] && AllPlain(pre + [k] + rest)
    requires LinkFree(t, Meant(pre, t.nodes[link].entry.target, names) + rest)
    ensures var target := t.nodes[link].entry.target;
            Lookup(t, Render(pre + [k] + rest), follow, 0) == PlainWalk(t, t.root, Meant(pre, target, names) + rest)
            <==> target != "" && target[0] == '/'
  {
    hide At, Clean, Dir, Components, Render, Join, Lookup, LookupFrom, LinkFree, PlainWalk;
    var target := t.nodes[link].entry.target;
    if target != "" && target[0] == '/' {
      AbsoluteLinkWalks(t, pre, k, link, names, rest, follow, 0);
    } else {
      RelativeLinkLoops(t, pre, k, link, names, rest, follow, 0);
      PlainWalkIsWalk(t, t.root, Meant(pre, target, names) + rest);
    }
  }

  // ----- A link at the end of a path.

  /** Resolving a path that ends in a link. */
  lemma LastLink(t: Tree, pre: seq<string>, k: string, link: Id, depth: nat)
    requires Closed(t) && depth <= MAX_LINKS && LeadsToLink(t, pre, k, link) && AllPlain(pre + [k])
    ensures Lookup(t, Render(pre + [k]), true, depth) == Lookup(t, Clean(Render(pre), t.nodes[link].entry.target), true, depth + 1)
  {
    hide At, Clean, Dir, Components, Render, Lookup, LinkFree;
    var parts := pre + [k];
    var p := Render(parts);
    var n := |pre|;
    ComponentsRender(parts);
    DirBase(pre, k);
    CleanIsSame(parts);
    assert parts[..n] == pre && parts[..0] == [] && parts[0..] == parts && parts[n..] == [k];
    RootAt(t);
    LinkFreeUpTo(t, pre, parts);
    WalkDown(t, p, parts, 0, n, true, depth, t.root, At(t, pre).value);
    LookupUnfolds(t, p, true, depth);
    LinkFreeEnd(t, pre);
    ParentHolds(t, pre, k);
  }

  lemma LinkFreeUpTo(t: Tree, up: seq<string>, parts: seq<string>)
    requires LinkFree(t, up) && up <= parts
    ensures forall j :: 0 <= j <= |up| && EntryAt(t, parts[..j]).Some? ==> EntryAt(t, parts[..j]).value.kind != Symlink
  {
    hide EntryAt;
    assert forall j :: 0 <= j <= |up| ==> parts[..j] == up[..j];
  }

  lemma LinkFreeEnd(t: Tree, pre: seq<string>)
    requires LinkFree(t, pre) && At(t, pre).Some? && At(t, pre).value in t.nodes
    ensures t.nodes[At(t, pre).value].entry.kind != Symlink
  {
    assert pre[..|pre|] == pre;
    assert EntryAt(t, pre) == Some(t.nodes[At(t, pre).value].entry);
  }

  lemma ParentHolds(t: Tree, pre: seq<string>, k: string)
    requires Closed(t) && At(t, pre).Some? && At(t, pre).value in t.nodes && k in t.nodes[At(t, pre).value].children
    ensures t.nodes[At(t, pre).value].entry.kind == Directory
    ensures EntryAt(t, pre).Some? && EntryAt(t, pre).value.kind == Directory
  {
  }

  lemma CleanIsSame(parts: seq<string>)
    requires AllPlain(parts)
    ensures Clean("/", Render(parts)) == Render(parts)
  {
    CleanRender(parts);
  }

  /** In one directory, each of these names is a link to the next one. */
  ghost predicate Chain(t: Tree, dir: seq<string>, names: seq<string>) {
    forall i :: 0 <= i < |names| - 1 ==> LinksTo(t, dir, names[i], names[i + 1])
  }

  ghost predicate LinksTo(t: Tree, dir: seq<string>, k: string, target: string) {
    EntryAt(t, dir + [k]).Some? && EntryAt(t, dir + [k]).value.kind == Symlink && EntryAt(t, dir + [k]).value.target == target
  }

  lemma LinksToLeads(t: Tree, dir: seq<string>, k: string, target: string)
    requires Closed(t) && LinkFree(t, dir) && LinksTo(t, dir, k, target)
    ensures At(t, dir + [k]).Some? && LeadsToLink(t, dir, k, At(t, dir + [k]).value)
    ensures t.nodes[At(t, dir + [k]).value].entry.target == target
  {
    hide Walk, LinkFree;
    WalkConcat(t, t.root, dir, [k]);
    WalkInNodes(t, t.root, dir);
    WalkStep(t, At(t, dir).value, k, []);
    assert [k] + [] == [k];
    ChildAt(t, dir, At(t, dir).value, k);
  }

  /** Following one link of a chain. */
  lemma ChainStep(t: Tree, dir: seq<string>, k: string, target: string, depth: nat)
    requires Closed(t) && LinkFree(t, dir) && AllPlain(dir + [k]) && Plain(target) && LinksTo(t, dir, k, target) && depth <= MAX_LINKS
    ensures Lookup(t, Render(dir + [k]), true, depth) == Lookup(t, Render(dir + [target]), true, depth + 1)
  {
    hide Lookup, Render, Clean, LinkFree, Walk, Plain, LinksTo;
    LinksToLeads(t, dir, k, target);
    LastLink(t, dir, k, At(t, dir + [k]).value, depth);
    PlainParts(dir, [k]);
    OneNameClean(dir, target);
  }

  lemma OneNameClean(dir: seq<string>, name: string)
    requires AllPlain(dir) && Plain(name)
    ensures Clean(Render(dir), name) == Render(dir + [name])
  {
    hide Clean;
    UpAndDown(dir, 0, [name]);
    assert Ups(0) + [name] == [name] && Climbed(dir, 0) == dir;
  }

  /** A chain of links in one directory is followed to what its last name is, as long
      as it has at most 16 links, and is an error otherwise. */
  lemma {:induction false} ChainIff(t: Tree, dir: seq<string>, names: seq<string>, depth: nat)
    requires Closed(t) && LinkFree(t, dir) && AllPlain(dir) && AllPlain(names) && names != [] && Chain(t, dir, names)
    requires EntryAt(t, dir + [names[|names| - 1]]).Some? && EntryAt(t, dir + [names[|names| - 1]]).value.kind != Symlink
    requires depth <= 17
    ensures Lookup(t, Render(dir + [names[0]]), true, depth) ==
      if depth + |names| - 1 <= 16 then Found(At(t, dir + [names[|names| - 1]]).value) else Failed(LinkLoop)
    decreases |names|
  {
    hide Lookup, Render, LinkFree, Walk, LinksTo, EntryAt;
    if depth > 16 {
      TooDeep(t, Render(dir + [names[0]]), depth);
    } else if |names| == 1 {
      EndOfChain(t, dir, names[0], depth);
    } else {
      ChainStep(t, dir, names[0], names[1], depth);
      forall i | 0 <= i < |names| - 2 ensures LinksTo(t, dir, names[1..][i], names[1..][i + 1]) {
        assert LinksTo(t, dir, names[i + 1], names[i + 2]);
      }
      ChainIff(t, dir, names[1..], depth + 1);
    }
  }

  lemma TooDeep(t: Tree, p: string, depth: nat)
    requires Closed(t) && depth == 17
    ensures Lookup(t, p, true, depth) == Failed(LinkLoop)
  {
  }

  lemma EndOfChain(t: Tree, dir: seq<string>, name: string, depth: nat)
    requires Closed(t) && LinkFree(t, dir) && AllPlain(dir) && Plain(name) && depth <= MAX_LINKS
    requires EntryAt(t, dir + [name]).Some? && EntryAt(t, dir + [name]).value.kind != Symlink
    ensures Lookup(t, Render(dir + [name]), true, depth) == Found(At(t, dir + [name]).value)
  {
    hide Lookup, Render, Walk, Plain;
    var parts := dir + [name];
    assert forall i :: 0 <= i <= |dir| ==> parts[..i] == dir[..i];
    assert parts[..|parts|] == parts;
    LinkFreeLookupAt(t, parts, true, depth);
    PlainWalkIsWalk(t, t.root, parts);
    WalkIsAt(t, parts);
  }

  /** Links that go round in a circle are an error. */
  lemma {:induction false} CircleLoops(t: Tree, dir: seq<string>, names: seq<string>, i: nat, depth: nat)
    requires Closed(t) && LinkFree(t, dir) && AllPlain(dir) && AllPlain(names) && i < |names| && depth <= 17
    requires forall j :: 0 <= j < |names| ==> LinksTo(t, dir, names[j], names[if j + 1 == |names| then 0 else j + 1])
    ensures Lookup(t, Render(dir + [names[i]]), true, depth) == Failed(LinkLoop)
    decreases 17 - depth
  {
    hide Lookup, Render, LinkFree, LinksTo;
    if depth > 16 {
      TooDeep(t, Render(dir + [names[i]]), depth);
    } else {
      var next := if i + 1 == |names| then 0 else i + 1;
      ChainStep(t, dir, names[i], names[next], depth);
      CircleLoops(t, dir, names, next, depth + 1);
    }
  }

  // ----- Every link at once.

  /** The first link on the way. */
  lemma {:induction false} FirstLink(t: Tree, up: seq<string>) returns (n: nat, link: Id)
    requires Closed(t) && !LinkFree(t, up)
    ensures n < |up| && LeadsToLink(t, up[..n], up[n], link)
    decreases |up|
  {
    hide At;
    if up == [] {
      RootFree(t);
      assert false;
    } else {
      n := |up| - 1;
      var init := up[..n];
      if LinkFree(t, init) {
        assert up == init + [up[n]];
        link := LastIsLink(t, init, up[n]);
      } else {
        n, link := FirstLink(t, init);
        assert init[..n] == up[..n];
      }
    }
  }

  lemma RootFree(t: Tree)
    requires Closed(t)
    ensures LinkFree(t, [])
  {
  }

  lemma LastIsLink(t: Tree, init: seq<string>, k: string) returns (link: Id)
    requires Closed(t) && LinkFree(t, init) && !LinkFree(t, init + [k])
    ensures LeadsToLink(t, init, k, link)
  {
    hide Walk;
    var up := init + [k];
    assert forall i :: 0 <= i <= |init| ==> up[..i] == init[..i];
    assert up[..|up|] == up;
    assert EntryAt(t, up).Some? && EntryAt(t, up).value.kind == Symlink;
    var d := At(t, init);
    WalkConcat(t, t.root, init, [k]);
    WalkInNodes(t, t.root, init);
    WalkStep(t, d.value, k, []);
    assert [k] + [] == [k];
    ChildAt(t, init, d.value, k);
    link := t.nodes[d.value].children[k];
  }

  /** Where every link has plain names for its target, as the one link of the stock
      filesystem has, no path that goes through a link leads anywhere. */
  lemma PlainLinksLoop(t: Tree, parts: seq<string>, follow: bool)
    requires Closed(t) && PlainLinks(t) && AllPlain(parts) && parts != [] && !LinkFree(t, parts[..|parts| - 1])
    ensures Lookup(t, Render(parts), follow, 0) == Failed(LinkLoop)
  {
    hide At, Clean, Dir, Components, Render, Join, Lookup, LookupFrom, LinkFree, AllPlain;
    var up := parts[..|parts| - 1];
    var n, link := FirstLink(t, up);
    var pre, k, rest := up[..n], up[n], parts[n + 1..];
    assert pre + [k] + rest == parts;
    assert PlainTarget(t.nodes[link].entry.target);
    var names :| TargetNames(t.nodes[link].entry.target, names);
    RelativeLinkLoops(t, pre, k, link, names, rest, follow, 0);
  }

  /** So a lookup there is a plain walk up to the last name, or the link error. */
  lemma PlainLinksLookup(t: Tree, parts: seq<string>)
    requires Closed(t) && PlainLinks(t) && AllPlain(parts)
    ensures Lookup(t, Render(parts), false, 0) ==
      if parts != [] && !LinkFree(t, parts[..|parts| - 1]) then Failed(LinkLoop) else PlainWalk(t, t.root, parts)
  {
    hide At, Clean, Dir, Components, Render, Lookup, LookupFrom, LinkFree, AllPlain, PlainWalk;
    if parts != [] && !LinkFree(t, parts[..|parts| - 1]) {
      PlainLinksLoop(t, parts, false);
    } else {
      UnfollowedWalk(t, parts);
    }
  }

  /** With no link before its last name, a lookup that does not follow that name
      is a plain walk. */
  lemma UnfollowedWalk(t: Tree, parts: seq<string>)
    requires Closed(t) && AllPlain(parts) && (parts != [] ==> LinkFree(t, parts[..|parts| - 1]))
    ensures Lookup(t, Render(parts), false, 0) == PlainWalk(t, t.root, parts)
  {
    hide LookupFrom, Render, Components, LinkFree;
    ComponentsRender(parts);
    assert parts[0..] == parts && parts[..0] == [];
    RootAt(t);
    UnfollowedFrom(t, Render(parts), parts, 0, t.root);
  }

  lemma {:induction false} UnfollowedFrom(t: Tree, p: string, parts: seq<string>, i: nat, cur: Id)
    requires Closed(t) && cur in t.nodes && i <= |parts| && At(t, parts[..i]) == Some(cur)
    requires parts != [] ==> LinkFree(t, parts[..|parts| - 1])
    ensures LookupFrom(t, p, parts[i..], false, 0, cur) == PlainWalk(t, cur, parts[i..])
    decreases |parts| - i
  {
    hide At;
    if i < |parts| {
      assert parts[..|parts| - 1][..i] == parts[..i];
      assert EntryAt(t, parts[..i]) == Some(t.nodes[cur].entry);
      if t.nodes[cur].entry.kind == Directory && parts[i] in t.nodes[cur].children {
        assert parts[i..][1..] == parts[i + 1..] && parts[..i + 1] == parts[..i] + [parts[i]];
        ChildAt(t, parts[..i], cur, parts[i]);
        UnfollowedFrom(t, p, parts, i + 1, t.nodes[cur].children[parts[i]]);
      }
    }
  }

  /** The one link of the stock filesystem, `/bin/sh` to `dash`: no path goes
      through it, whatever is behind it. */
  lemma StockLinkLoops(t: Tree, bin: Id, sh: Id, rest: seq<string>, follow: bool, depth: nat)
    requires Closed(t) && depth <= MAX_LINKS + 1
    requires "bin" in t.nodes[t.root].children && t.nodes[t.root].children["bin"] == bin
    requires t.nodes[bin].entry.kind == Directory && "sh" in t.nodes[bin].children && t.nodes[bin].children["sh"] == sh
    requires t.nodes[sh].entry.kind == Symlink && t.nodes[sh].entry.target == "dash"
    requires rest != [] && AllPlain(rest)
    ensures Lookup(t, Render(["bin", "sh"] + rest), follow, depth) == Failed(LinkLoop)
  {
    hide Clean, Dir, Components, Render, Lookup, LookupFrom, Plain;
    StockLink(t, bin, sh);
    StockNames(rest);
    assert ["bin"] + ["sh"] + rest == ["bin", "sh"] + rest;
    RelativeLinkLoops(t, ["bin"], "sh", sh, ["dash"], rest, follow, depth);
  }

  lemma StockNames(rest: seq<string>)
    requires AllPlain(rest)
    ensures AllPlain(["bin"] + ["sh"] + rest) && AllPlain(["dash"]) && Join(["dash"], '/') == "dash"
  {
  }

  lemma StockLink(t: Tree, bin: Id, sh: Id)
    requires Closed(t)
    requires "bin" in t.nodes[t.root].children && t.nodes[t.root].children["bin"] == bin
    requires t.nodes[bin].entry.kind == Directory && "sh" in t.nodes[bin].children && t.nodes[bin].children["sh"] == sh
    requires t.nodes[sh].entry.kind == Symlink
    ensures LeadsToLink(t, ["bin"], "sh", sh)
  {
    RootAt(t);
    ChildAt(t, [], t.root, "bin");
    assert [] + ["bin"] == ["bin"];
    assert ["bin"][..0] == [] && ["bin"][..1] == ["bin"];
  }
}
