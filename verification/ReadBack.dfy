/** When a successful `WriteFile` can be read back under the same path
    (node/internal/vfs/vfs.go). Writing resolves the parent path; reading walks
    the whole path, and meets links, and the new file itself, in other places. */
module ReadBack {
  import opened Basics
  import opened Text
  import opened Paths
  import opened Trees
  import opened TreeEdits
  import opened Lookups
  import opened MidPathLinks
  import opened Vfs

  /** A name in a directory: the place a write fills. */
  datatype Slot = Slot(dir: Id, name: string)

  datatype Sought = Hit | Miss(found: Found)

  /** How a path would resolve if the slot held a plain file: a hit when it comes
      to the slot with nothing more to look up. It can be evaluated before the
      write, on the tree as it is. */
  function Seek(t: Tree, slot: Slot, p: string, depth: nat): (s: Sought)
    requires Closed(t) && depth <= MAX_LINKS + 1
    ensures s.Miss? && s.found.Found? ==> s.found.id in t.nodes
    decreases MAX_LINKS + 1 - depth, 1, 0
  {
    if depth > MAX_LINKS then Miss(Failed(LinkLoop)) else SeekFrom(t, slot, p, Components(p), depth, t.root)
  }

  function SeekFrom(t: Tree, slot: Slot, p: string, rest: seq<string>, depth: nat, cur: Id): (s: Sought)
    requires Closed(t) && depth <= MAX_LINKS && cur in t.nodes
    ensures s.Miss? && s.found.Found? ==> s.found.id in t.nodes
    decreases MAX_LINKS + 1 - depth, 0, |rest|
  {
    if rest == [] then Miss(Found(cur))
    else
      var here := if t.nodes[cur].entry.kind == Symlink
                  then Seek(t, slot, Clean(Dir(p), t.nodes[cur].entry.target), depth + 1) else Miss(Found(cur));
      if here.Hit? then Miss(Failed(NotDir))
      else if here.found.Failed? then here
      else if t.nodes[here.found.id].entry.kind != Directory then Miss(Failed(NotDir))
      else if Slot(here.found.id, rest[0]) == slot then if |rest| == 1 then Hit else Miss(Failed(NotDir))
      else if rest[0] !in t.nodes[here.found.id].children then Miss(Failed(NotFound))
      else
        var next := t.nodes[here.found.id].children[rest[0]];
        if |rest| == 1 && t.nodes[next].entry.kind == Symlink
        then Seek(t, slot, Clean(Dir(Clean("/", p)), t.nodes[next].entry.target), depth + 1)
        else SeekFrom(t, slot, p, rest[1..], depth, next)
  }

  /** The tree with a file in the slot. */
  ghost predicate Filed(t: Tree, u: Tree, slot: Slot, id: Id, e: Entry) {
    && Closed(t) && Closed(u) && id !in t.nodes && e.kind == File
    && slot.dir in t.nodes && t.nodes[slot.dir].entry.kind == Directory
    && u == Link(t, slot.dir, slot.name, id, e)
  }

  function AsFound(s: Sought, id: Id): Found {
    if s.Hit? then Found(id) else s.found
  }

  lemma FiledNodes(t: Tree, u: Tree, slot: Slot, id: Id, e: Entry)
    requires Filed(t, u, slot, id, e)
    ensures u.root == t.root && t.root in t.nodes && id in u.nodes && u.nodes[id].entry == e
    ensures forall n :: n in t.nodes ==> n in u.nodes && u.nodes[n].entry == t.nodes[n].entry
    ensures forall n, k :: n in t.nodes && Slot(n, k) != slot ==>
      (k in u.nodes[n].children <==> k in t.nodes[n].children)
      && (k in t.nodes[n].children ==> u.nodes[n].children[k] == t.nodes[n].children[k])
    ensures slot.name in u.nodes[slot.dir].children && u.nodes[slot.dir].children[slot.name] == id
  {
  }

  /** Lookups in the new tree are seeks in the old one. */
  lemma {:induction false} SeekIsLookup(t: Tree, u: Tree, slot: Slot, id: Id, e: Entry, p: string, depth: nat)
    requires Filed(t, u, slot, id, e) && depth <= MAX_LINKS + 1
    ensures Lookup(u, p, true, depth) == AsFound(Seek(t, slot, p, depth), id)
    decreases MAX_LINKS + 1 - depth, 1, 0
  {
    hide Components, Link, Closed;
    FiledNodes(t, u, slot, id, e);
    if depth <= MAX_LINKS {
      SeekFromIsLookup(t, u, slot, id, e, p, Components(p), depth, t.root);
    }
  }

  lemma {:induction false} SeekFromIsLookup(
    t: Tree, u: Tree, slot: Slot, id: Id, e: Entry, p: string, rest: seq<string>, depth: nat, cur: Id)
    requires Filed(t, u, slot, id, e) && depth <= MAX_LINKS && cur in t.nodes && cur in u.nodes
    ensures LookupFrom(u, p, rest, true, depth, cur) == AsFound(SeekFrom(t, slot, p, rest, depth, cur), id)
    decreases MAX_LINKS + 1 - depth, 0, |rest|
  {
    hide Clean, Dir, Components, Link, Closed, Seek, Lookup;
    FiledNodes(t, u, slot, id, e);
    if rest != [] {
      var here := Miss(Found(cur));
      if t.nodes[cur].entry.kind == Symlink {
        SeekIsLookup(t, u, slot, id, e, Clean(Dir(p), t.nodes[cur].entry.target), depth + 1);
        here := Seek(t, slot, Clean(Dir(p), t.nodes[cur].entry.target), depth + 1);
      }
      if here.Miss? && here.found.Found? && t.nodes[here.found.id].entry.kind == Directory {
        var d := here.found.id;
        if Slot(d, rest[0]) == slot {
          FileEnds(u, p, rest[1..], depth, id);
        } else if rest[0] in t.nodes[d].children {
          var next := t.nodes[d].children[rest[0]];
          ChildIn(t, d, rest[0]);
          if |rest| == 1 && t.nodes[next].entry.kind == Symlink {
            SeekIsLookup(t, u, slot, id, e, Clean(Dir(Clean("/", p)), t.nodes[next].entry.target), depth + 1);
          } else {
            SeekFromIsLookup(t, u, slot, id, e, p, rest[1..], depth, next);
          }
        }
      }
    }
  }

  lemma ChildIn(t: Tree, d: Id, k: string)
    requires Closed(t) && d in t.nodes && k in t.nodes[d].children
    ensures t.nodes[d].children[k] in t.nodes
  {
  }

  /** A lookup that has come to a file ends there. */
  lemma FileEnds(u: Tree, p: string, rest: seq<string>, depth: nat, id: Id)
    requires Closed(u) && id in u.nodes && u.nodes[id].entry.kind == File && depth <= MAX_LINKS
    ensures LookupFrom(u, p, rest, true, depth, id) == if rest == [] then Found(id) else Failed(NotDir)
  {
  }

  // ----- The condition.

  /** A write to this path is admitted, size apart. */
  ghost predicate Writable(t: Tree, p: string)
    requires Closed(t)
  {
    WriteRefused(t, 0, p, 0).None?
  }

  /** The slot such a write fills. */
  function SlotOf(t: Tree, p: string): Slot
    requires Closed(t) && Writable(t, p)
  {
    Slot(Lookup(t, Dir(p), true, 0).id, Base(p))
  }

  /** The tree after it. */
  function Written(t: Tree, p: string, id: Id, mode: nat, content: seq<Byte>): Tree
    requires Closed(t) && Writable(t, p)
  {
    Link(t, SlotOf(t, p).dir, Base(p), id, NewFile(Base(p), mode, content))
  }

  /** That is what `WriteFile` leaves, within the quota. */
  lemma WrittenIsAfterWrite(d: Disk, p: string, content: seq<Byte>, mode: nat)
    requires Steady(d) && WriteRefused(d.tree, d.written, p, |content|).None?
    ensures Writable(d.tree, p) && AfterWrite(d, p, content, mode).tree == Written(d.tree, p, d.nextId, mode, content)
  {
    hide Lookup, Dir, Base, Link;
  }

  lemma WrittenIsFiled(t: Tree, p: string, id: Id, mode: nat, content: seq<Byte>)
    requires Closed(t) && Writable(t, p) && id !in t.nodes
    ensures Filed(t, Written(t, p, id, mode, content), SlotOf(t, p), id, NewFile(Base(p), mode, content))
  {
    hide Lookup, Dir, Base, Link, Closed;
    LinkClosed(t, SlotOf(t, p).dir, Base(p), id, NewFile(Base(p), mode, content));
  }

  lemma HitReads(t: Tree, p: string, id: Id, mode: nat, content: seq<Byte>, computed: nat -> seq<Byte>)
    requires Closed(t) && Writable(t, p) && id !in t.nodes && Seek(t, SlotOf(t, p), p, 0).Hit?
    ensures Closed(Written(t, p, id, mode, content))
    ensures Read(Written(t, p, id, mode, content), p, computed) == Data(content)
  {
    hide Lookup, Seek, Dir, Base, Link, Closed, Writable;
    var u, e := Written(t, p, id, mode, content), NewFile(Base(p), mode, content);
    WrittenIsFiled(t, p, id, mode, content);
    SeekIsLookup(t, u, SlotOf(t, p), id, e, p, 0);
    FiledNodes(t, u, SlotOf(t, p), id, e);
  }

  /** What a miss reads does not depend on what was written. */
  lemma MissReadsOther(t: Tree, p: string, id: Id, mode: nat, a: seq<Byte>, b: seq<Byte>, computed: nat -> seq<Byte>)
    requires Closed(t) && Writable(t, p) && id !in t.nodes && Seek(t, SlotOf(t, p), p, 0).Miss?
    ensures Closed(Written(t, p, id, mode, a)) && Closed(Written(t, p, id, mode, b))
    ensures Read(Written(t, p, id, mode, a), p, computed) == Read(Written(t, p, id, mode, b), p, computed)
  {
    hide Lookup, Seek, Dir, Base, Link, Closed, Writable;
    forall c ensures var u := Written(t, p, id, mode, c);
                     Closed(u) && Read(u, p, computed) == ReadOld(t, Seek(t, SlotOf(t, p), p, 0).found, computed)
    {
      var u, e := Written(t, p, id, mode, c), NewFile(Base(p), mode, c);
      WrittenIsFiled(t, p, id, mode, c);
      SeekIsLookup(t, u, SlotOf(t, p), id, e, p, 0);
      FiledNodes(t, u, SlotOf(t, p), id, e);
    }
  }

  /** Reading the node a lookup found. */
  function ReadOld(t: Tree, found: Found, computed: nat -> seq<Byte>): ReadResult
    requires found.Found? ==> found.id in t.nodes
  {
    if found.Failed? then ReadFailed(found.error)
    else
      var e := t.nodes[found.id].entry;
      if e.kind == Directory then ReadFailed(IsDir)
      else if e.dynamic.Some? then Data(computed(e.dynamic.value))
      else Data(e.content)
  }

  /** For every tree and every path a write is admitted to: what is written reads
      back, whatever it is, if and only if the path comes to the slot as its last
      step, with the slot taken for a file. */
  lemma ReadBackIff(t: Tree, p: string, id: Id, mode: nat, computed: nat -> seq<Byte>)
    requires Closed(t) && Writable(t, p) && id !in t.nodes
    ensures (forall content :: Closed(Written(t, p, id, mode, content))
                               && Read(Written(t, p, id, mode, content), p, computed) == Data(content))
       <==> Seek(t, SlotOf(t, p), p, 0).Hit?
  {
    hide Lookup, Seek, Dir, Base, Link, Closed, Writable, Read, Written;
    if Seek(t, SlotOf(t, p), p, 0).Hit? {
      forall content ensures Closed(Written(t, p, id, mode, content))
                             && Read(Written(t, p, id, mode, content), p, computed) == Data(content)
      {
        HitReads(t, p, id, mode, content, computed);
      }
    } else {
      MissReadsOther(t, p, id, mode, [], [0], computed);
      assert Data([]) != Data([0]);
    }
  }

  // ----- The condition, decided by looking at the parent path.

  /** What fills the slot now, if anything, is not a directory. */
  ghost predicate NoDirectoryIn(t: Tree, slot: Slot)
    requires Closed(t)
  {
    slot.dir in t.nodes && slot.name in t.nodes[slot.dir].children ==>
      t.nodes[t.nodes[slot.dir].children[slot.name]].entry.kind != Directory
  }

  lemma SlotNotDirectory(t: Tree, p: string)
    requires Closed(t) && Writable(t, p)
    ensures NoDirectoryIn(t, SlotOf(t, p)) && SlotOf(t, p).dir in t.nodes
    ensures t.nodes[SlotOf(t, p).dir].entry.kind == Directory && Lookup(t, Dir(p), true, 0) == Found(SlotOf(t, p).dir)
  {
    hide Lookup, Dir, Base;
  }

  lemma SeekUnfolds(t: Tree, slot: Slot, p: string, depth: nat)
    requires Closed(t) && depth <= MAX_LINKS
    ensures Seek(t, slot, p, depth) == SeekFrom(t, slot, p, Components(p), depth, t.root)
  {
  }

  /** A seek that meets no link, and does not use the slot, on the first `n` names
      stands where those lead. */
  lemma {:induction false} SeekDown(
    t: Tree, slot: Slot, p: string, parts: seq<string>, i: nat, n: nat, depth: nat, cur: Id, at: Id)
    requires Closed(t) && depth <= MAX_LINKS && i <= n <= |parts| && cur in t.nodes && at in t.nodes
    requires At(t, parts[..i]) == Some(cur) && At(t, parts[..n]) == Some(at)
    requires forall j :: i <= j < n && EntryAt(t, parts[..j]).Some? ==> EntryAt(t, parts[..j]).value.kind != Symlink
    requires n < |parts| || t.nodes[at].entry.kind != Symlink
    requires forall j :: i <= j < n && At(t, parts[..j]).Some? ==> Slot(At(t, parts[..j]).value, parts[j]) != slot
    ensures SeekFrom(t, slot, p, parts[i..], depth, cur) == SeekFrom(t, slot, p, parts[n..], depth, at)
    decreases n - i
  {
    hide At, Seek;
    if i < n {
      assert parts[..n] == parts[..i] + parts[i..n];
      Descend(t, parts[..i], cur, parts[i..n]);
      assert parts[i..n][0] == parts[i] && parts[..i] + [parts[i]] == parts[..i + 1];
      ChildAt(t, parts[..i], cur, parts[i]);
      ChildIn(t, cur, parts[i]);
      var next := t.nodes[cur].children[parts[i]];
      assert EntryAt(t, parts[..i]) == Some(t.nodes[cur].entry);
      assert parts[i..][1..] == parts[i + 1..];
      SeekDown(t, slot, p, parts, i + 1, n, depth, next, at);
    }
  }

  /** Steps between directories do not use the slot. */
  lemma DirectoriesClear(t: Tree, slot: Slot, parts: seq<string>, n: nat)
    requires Closed(t) && NoDirectoryIn(t, slot) && n <= |parts| && At(t, parts[..n]).Some?
    requires EntryAt(t, parts[..n]).Some? && EntryAt(t, parts[..n]).value.kind == Directory
    ensures forall j :: 0 <= j < n && At(t, parts[..j]).Some? ==> Slot(At(t, parts[..j]).value, parts[j]) != slot
  {
    hide At, EntryAt;
    forall j | 0 <= j < n && At(t, parts[..j]).Some? ensures Slot(At(t, parts[..j]).value, parts[j]) != slot {
      var d := At(t, parts[..j]).value;
      StepIntoDirectory(t, parts, j, n);
    }
  }

  lemma StepIntoDirectory(t: Tree, parts: seq<string>, j: nat, n: nat)
    requires Closed(t) && j < n <= |parts| && At(t, parts[..j]).Some?
    requires EntryAt(t, parts[..n]).Some? && EntryAt(t, parts[..n]).value.kind == Directory
    ensures var d := At(t, parts[..j]).value;
            d in t.nodes && parts[j] in t.nodes[d].children && t.nodes[t.nodes[d].children[parts[j]]].entry.kind == Directory
  {
    hide Walk;
    var d := At(t, parts[..j]).value;
    WalkInNodes(t, t.root, parts[..j]);
    assert parts[..n] == parts[..j] + parts[j..n] && parts[j..n][0] == parts[j];
    Descend(t, parts[..j], d, parts[j..n]);
    assert parts[..j] + [parts[j]] == parts[..j + 1];
    ChildAt(t, parts[..j], d, parts[j]);
    ChildIn(t, d, parts[j]);
    if j + 1 < n {
      assert parts[..n] == parts[..j + 1] + parts[j + 1..n];
      Descend(t, parts[..j + 1], t.nodes[d].children[parts[j]], parts[j + 1..n]);
    }
  }

  /** Reading the root never comes to a slot. */
  lemma RootMisses(t: Tree, slot: Slot)
    requires Closed(t)
    ensures Seek(t, slot, Render([]), 0) == Miss(Found(t.root))
  {
    ComponentsRender([]);
  }

  /** Without links on the parent path, a write reads back. */
  lemma LinkFreeHits(t: Tree, up: seq<string>, name: string)
    requires Closed(t) && AllPlain(up + [name]) && LinkFree(t, up) && Writable(t, Render(up + [name]))
    ensures Seek(t, SlotOf(t, Render(up + [name])), Render(up + [name]), 0).Hit?
  {
    hide Lookup, Dir, Base, Render, Components, Clean, Seek, At, PlainWalk, NoDirectoryIn, LinkFree, Writable;
    var parts := up + [name];
    var p := Render(parts);
    var slot := SlotOf(t, p);
    SlotNotDirectory(t, p);
    DirBase(up, name);
    PlainParts(up, [name]);
    LinkFreeLookupAt(t, up, true, 0);
    PlainWalkIsWalk(t, t.root, up);
    WalkIsAt(t, up);
    assert parts[..|up|] == up && parts[..0] == [] && parts[0..] == parts && parts[|up|..] == [name];
    DirectoriesClear(t, slot, parts, |up|);
    LinkFreeUpTo(t, up, parts);
    ComponentsRender(parts);
    RootAt(t);
    SeekUnfolds(t, slot, p, 0);
    SeekDown(t, slot, p, parts, 0, |up|, 0, t.root, slot.dir);
  }

  // ----- A parent that is a link.

  /** Seeking through a mid-path link, where the slot is not the link itself. */
  lemma SeekMidLink(t: Tree, slot: Slot, pre: seq<string>, k: string, link: Id, rest: seq<string>, depth: nat)
    requires Closed(t) && NoDirectoryIn(t, slot) && depth <= MAX_LINKS && LeadsToLink(t, pre, k, link)
    requires rest != [] && AllPlain(pre + [k] + rest) && slot != Slot(At(t, pre).value, k)
    ensures var p := Render(pre + [k] + rest);
            Seek(t, slot, p, depth) == SeekFrom(t, slot, p, rest, depth, link)
  {
    hide At, Clean, Dir, Components, Render, Seek, NoDirectoryIn, LinkFree;
    var parts := pre + [k] + rest;
    var p := Render(parts);
    var n := |pre| + 1;
    ComponentsRender(parts);
    assert parts[..0] == [] && parts[0..] == parts && parts[n..] == rest && parts[..n] == pre + [k] && parts[..|pre|] == pre;
    RootAt(t);
    ChildAt(t, pre, At(t, pre).value, k);
    LinkFreeUpTo(t, pre, parts);
    ParentHolds(t, pre, k);
    DirectoriesClear(t, slot, parts, |pre|);
    assert parts[|pre|] == k;
    SeekDown(t, slot, p, parts, 0, n, depth, t.root, link);
    SeekUnfolds(t, slot, p, depth);
  }

  /** Seeking past the slot when the link itself is in it. */
  lemma SeekReplacedLink(t: Tree, pre: seq<string>, k: string, link: Id, rest: seq<string>)
    requires Closed(t) && LeadsToLink(t, pre, k, link) && rest != [] && AllPlain(pre + [k] + rest)
    ensures Seek(t, Slot(At(t, pre).value, k), Render(pre + [k] + rest), 0) == Miss(Failed(NotDir))
  {
    hide At, Clean, Dir, Components, Render, Seek, LinkFree;
    var slot := Slot(At(t, pre).value, k);
    var parts := pre + [k] + rest;
    var p := Render(parts);
    ComponentsRender(parts);
    assert parts[..0] == [] && parts[0..] == parts && parts[..|pre|] == pre && parts[|pre|..] == [k] + rest;
    RootAt(t);
    LinkFreeUpTo(t, pre, parts);
    ParentHolds(t, pre, k);
    DirectoriesClear(t, slot, parts, |pre|);
    SeekDown(t, slot, p, parts, 0, |pre|, 0, t.root, At(t, pre).value);
    SeekUnfolds(t, slot, p, 0);
  }

  /** Through a link with a relative target nothing is ever found. */
  lemma {:induction false} SeekRelativeLoops(
    t: Tree, slot: Slot, pre: seq<string>, k: string, link: Id, names: seq<string>, rest: seq<string>, depth: nat)
    requires Closed(t) && NoDirectoryIn(t, slot) && depth <= MAX_LINKS + 1 && LeadsToLink(t, pre, k, link)
    requires names != [] && AllPlain(names) && t.nodes[link].entry.target == Join(names, '/')
    requires rest != [] && AllPlain(pre + [k] + rest) && slot != Slot(At(t, pre).value, k)
    ensures Seek(t, slot, Render(pre + [k] + rest), depth) == Miss(Failed(LinkLoop))
    decreases MAX_LINKS + 1 - depth
  {
    hide At, Clean, Dir, Components, Render, Join, NoDirectoryIn, LinkFree;
    if depth <= MAX_LINKS {
      SeekMidLink(t, slot, pre, k, link, rest, depth);
      TargetFromWholePath(pre, k, rest, names);
      SeekRelativeLoops(t, slot, pre, k, link, names, rest[..|rest| - 1] + names, depth + 1);
    }
  }

  /** A seek that is no hit finds what the lookup finds, or fails. */
  lemma {:induction false} SeekNear(t: Tree, slot: Slot, p: string, depth: nat)
    requires Closed(t) && depth <= MAX_LINKS + 1
    ensures var s := Seek(t, slot, p, depth); s.Hit? || s.found.Failed? || s.found == Lookup(t, p, true, depth)
    decreases MAX_LINKS + 1 - depth, 1, 0
  {
    hide Components;
    if depth <= MAX_LINKS {
      SeekFromNear(t, slot, p, Components(p), depth, t.root);
    }
  }

  lemma {:induction false} SeekFromNear(t: Tree, slot: Slot, p: string, rest: seq<string>, depth: nat, cur: Id)
    requires Closed(t) && depth <= MAX_LINKS && cur in t.nodes
    ensures var s := SeekFrom(t, slot, p, rest, depth, cur);
            s.Hit? || s.found.Failed? || s.found == LookupFrom(t, p, rest, true, depth, cur)
    decreases MAX_LINKS + 1 - depth, 0, |rest|
  {
    hide Clean, Dir, Components, Seek, Lookup, Closed;
    if rest != [] {
      var here := Miss(Found(cur));
      if t.nodes[cur].entry.kind == Symlink {
        SeekNear(t, slot, Clean(Dir(p), t.nodes[cur].entry.target), depth + 1);
        here := Seek(t, slot, Clean(Dir(p), t.nodes[cur].entry.target), depth + 1);
      }
      if here.Miss? && here.found.Found? && rest[0] in t.nodes[here.found.id].children {
        var next := t.nodes[here.found.id].children[rest[0]];
        ChildIn(t, here.found.id, rest[0]);
        if |rest| == 1 && t.nodes[next].entry.kind == Symlink {
          SeekNear(t, slot, Clean(Dir(Clean("/", p)), t.nodes[next].entry.target), depth + 1);
        } else {
          SeekFromNear(t, slot, p, rest[1..], depth, next);
        }
      }
    }
  }

  /** The link's target still resolves as it does, with a file in the slot. */
  ghost predicate TargetStays(t: Tree, slot: Slot, names: seq<string>)
    requires Closed(t)
  {
    Seek(t, slot, Render(names), 1) == Miss(Found(slot.dir))
  }

  /** Where the parent is a link, and no other link comes before it, a write reads
      back if and only if the link's target is absolute, and the write does not
      put its file in place of that link or of one that its target runs through. */
  lemma ThroughLinkIff(t: Tree, pre: seq<string>, k: string, link: Id, names: seq<string>, name: string)
    requires Closed(t) && AllPlain(pre + [k] + [name]) && LeadsToLink(t, pre, k, link)
    requires TargetIs(t.nodes[link].entry.target, names) && Writable(t, Render(pre + [k] + [name]))
    ensures var p, target := Render(pre + [k] + [name]), t.nodes[link].entry.target;
            var slot := SlotOf(t, p);
            Seek(t, slot, p, 0).Hit? <==>
              target != "" && target[0] == '/' && slot != Slot(At(t, pre).value, k) && TargetStays(t, slot, names)
  {
    hide At, Clean, Dir, Base, Components, Render, Join, Lookup, Seek, NoDirectoryIn, LinkFree, Writable;
    var p, target := Render(pre + [k] + [name]), t.nodes[link].entry.target;
    var slot := SlotOf(t, p);
    SlotNotDirectory(t, p);
    if slot == Slot(At(t, pre).value, k) {
      SeekReplacedLink(t, pre, k, link, [name]);
    } else if target != "" && target[0] == '/' {
      SeekMidLink(t, slot, pre, k, link, [name], 0);
      SeekFromLink(t, slot, p, name, link);
      CleanAbsolute(Dir(p), target);
      CleanAbsolute(Render(pre), target);
      PlainParts(pre + [k], [name]);
      LastLink(t, pre, k, link, 0);
      DirBase(pre + [k], name);
      SeekNear(t, slot, Render(names), 1);
    } else {
      SeekRelativeLoops(t, slot, pre, k, link, names, [name], 0);
    }
  }

  /** The last step of a path whose parent is a link. */
  lemma SeekFromLink(t: Tree, slot: Slot, p: string, name: string, link: Id)
    requires Closed(t) && link in t.nodes && t.nodes[link].entry.kind == Symlink
    requires slot.dir in t.nodes && t.nodes[slot.dir].entry.kind == Directory
    ensures var here := Seek(t, slot, Clean(Dir(p), t.nodes[link].entry.target), 1);
            && (here == Miss(Found(slot.dir)) && name == slot.name ==> SeekFrom(t, slot, p, [name], 0, link).Hit?)
            && (here.Hit? || here.found.Failed? ==> SeekFrom(t, slot, p, [name], 0, link).Miss?)
  {
    hide Clean, Dir, Seek;
  }

  /** A target without links of its own stays. */
  lemma LinkFreeTargetStays(t: Tree, slot: Slot, names: seq<string>)
    requires Closed(t) && NoDirectoryIn(t, slot) && AllPlain(names) && LinkFree(t, names)
    requires At(t, names) == Some(slot.dir) && slot.dir in t.nodes && t.nodes[slot.dir].entry.kind == Directory
    ensures TargetStays(t, slot, names)
  {
    hide At, Components, Render, Seek, NoDirectoryIn, LinkFree;
    ComponentsRender(names);
    assert names[..|names|] == names && names[..0] == [] && names[0..] == names && names[|names|..] == [];
    RootAt(t);
    LinkFreeUpTo(t, names, names);
    DirectoriesClear(t, slot, names, |names|);
    SeekDown(t, slot, Render(names), names, 0, |names|, 1, t.root, slot.dir);
    SeekUnfolds(t, slot, Render(names), 1);
  }

  // ----- Trees whose links all have plain names for targets.

  /** In such a tree, which no operation leaves, what is written to a clean absolute
      path reads back, whatever it is, if and only if the path is not the root and
      no entry of its parent path is a link. */
  lemma PlainLinksReadBackIff(t: Tree, parts: seq<string>, id: Id, mode: nat, computed: nat -> seq<Byte>)
    requires Closed(t) && PlainLinks(t) && AllPlain(parts) && Writable(t, Render(parts)) && id !in t.nodes
    ensures (forall content :: Closed(Written(t, Render(parts), id, mode, content))
                               && Read(Written(t, Render(parts), id, mode, content), Render(parts), computed) == Data(content))
       <==> parts != [] && LinkFree(t, parts[..|parts| - 1])
  {
    hide Lookup, Seek, Dir, Base, Link, Closed, Writable, Read, Written, Render, Components, LinkFree, AllPlain, PlainLinks;
    var slot := SlotOf(t, Render(parts));
    ReadBackIff(t, Render(parts), id, mode, computed);
    if parts == [] {
      RootMisses(t, slot);
    } else {
      var up, name := parts[..|parts| - 1], parts[|parts| - 1];
      assert parts == up + [name];
      if LinkFree(t, up) {
        LinkFreeHits(t, up, name);
      } else {
        LinkMisses(t, up, name);
      }
    }
  }

  /** With a link on the parent path, only the last entry of it can be the first
      link, since the write is refused otherwise; and then it is not read back. */
  lemma LinkMisses(t: Tree, up: seq<string>, name: string)
    requires Closed(t) && PlainLinks(t) && AllPlain(up + [name]) && Writable(t, Render(up + [name])) && !LinkFree(t, up)
    ensures Seek(t, SlotOf(t, Render(up + [name])), Render(up + [name]), 0).Miss?
  {
    hide Lookup, Seek, Dir, Base, Link, Writable, Render, Components, LinkFree, AllPlain, At, Join;
    var parts := up + [name];
    PlainParts(up, [name]);
    DirBase(up, name);
    SlotNotDirectory(t, Render(parts));
    var n, link := FirstLink(t, up);
    var pre, k := up[..n], up[n];
    if n + 1 < |up| {
      assert up[..|up| - 1][..n + 1] == pre + [k];
      NotFreeBeyond(t, up, n, link);
      PlainLinksLoop(t, up, true);
    } else {
      assert pre + [k] == up;
      assert PlainTarget(t.nodes[link].entry.target);
      var names :| TargetNames(t.nodes[link].entry.target, names);
      RelativeTarget(t.nodes[link].entry.target, names);
      ThroughLinkIff(t, pre, k, link, names, name);
    }
  }

  lemma RelativeTarget(target: string, names: seq<string>)
    requires TargetNames(target, names)
    ensures target != "" && target[0] != '/' && TargetIs(target, names)
  {
    JoinStartsPlain(names);
  }

  /** Behind a link, a path is not free of links. */
  lemma NotFreeBeyond(t: Tree, up: seq<string>, n: nat, link: Id)
    requires Closed(t) && n + 1 < |up| && LeadsToLink(t, up[..n], up[n], link)
    ensures !LinkFree(t, up[..|up| - 1])
  {
    hide Walk;
    var init := up[..|up| - 1];
    assert init[..n + 1] == up[..n] + [up[n]];
    ChildAt(t, up[..n], At(t, up[..n]).value, up[n]);
    assert EntryAt(t, init[..n + 1]) == Some(t.nodes[link].entry);
  }

  // ----- The stock link.

  /** `/bin/sh -> dash` after `rm /bin/dash; mkdir /bin/dash`. */
  function StockTree(dash: Entry): Tree {
    Tree(map[
      0 := Node(NewDirectory("/", 0x1ED, false), map["bin" := 1]),
      1 := Node(NewDirectory("bin", 0x1ED, false), map["sh" := 2, "dash" := 3]),
      2 := Node(Entry("sh", Symlink, 0x1FF, "dash", [], None, false), map[]),
      3 := Node(dash, map[])], 0)
  }

  lemma StockTreeClosed(dash: Entry)
    requires dash.kind == Directory
    ensures Closed(StockTree(dash))
  {
  }

  lemma StockTreePaths(dash: Entry)
    ensures At(StockTree(dash), ["bin"]) == Some(1) && At(StockTree(dash), ["bin", "dash"]) == Some(3)
  {
    hide Walk, StockTree;
    var t := StockTree(dash);
    StockNodes(dash);
    RootAt(t);
    ChildAt(t, [], 0, "bin");
    assert [] + ["bin"] == ["bin"];
    ChildAt(t, ["bin"], 1, "dash");
    assert ["bin"] + ["dash"] == ["bin", "dash"];
  }

  lemma StockNodes(dash: Entry)
    ensures var t := StockTree(dash);
            && t.root == 0 && 0 in t.nodes && t.nodes[0].children == map["bin" := 1]
            && 1 in t.nodes && t.nodes[1].entry.kind == Directory && t.nodes[1].children == map["sh" := 2, "dash" := 3]
            && 2 in t.nodes && t.nodes[2].entry.kind == Symlink && 3 in t.nodes && t.nodes[3].entry == dash
            && t.nodes[0].entry.kind == Directory
  {
  }

  lemma StockTreeShape(dash: Entry)
    requires dash.kind == Directory
    ensures Closed(StockTree(dash)) && LeadsToLink(StockTree(dash), ["bin"], "sh", 2) && LinkFree(StockTree(dash), ["bin", "dash"])
    ensures At(StockTree(dash), ["bin", "dash"]) == Some(3) && At(StockTree(dash), ["bin"]) == Some(1)
  {
    hide Walk, LeadsToLink, Closed, StockTree;
    var t := StockTree(dash);
    StockTreeClosed(dash);
    StockTreePaths(dash);
    StockNodes(dash);
    StockLink(t, 1, 2);
    RootAt(t);
    var parts := ["bin", "dash"];
    assert parts[..0] == [] && parts[..1] == ["bin"] && parts[..2] == parts;
  }

  /** Its one link has a plain target. */
  lemma StockTreePlain(dash: Entry)
    requires dash.kind == Directory
    ensures PlainLinks(StockTree(dash))
  {
    assert TargetNames("dash", ["dash"]);
    assert PlainTarget("dash");
  }

  /** Then `/bin/sh/f` can be written, for any name `f`, and not read. */
  lemma StockLinkNotReadBack(dash: Entry, name: string)
    requires dash.kind == Directory && Plain(name)
    ensures Closed(StockTree(dash))
    ensures var t, p := StockTree(dash), Render(["bin", "sh", name]);
            Writable(t, p) && Seek(t, SlotOf(t, p), p, 0) == Miss(Failed(LinkLoop))
  {
    hide At, Clean, Dir, Base, Components, Render, Lookup, Seek, LinkFree, Join, StockTree;
    var t := StockTree(dash);
    StockTreeShape(dash);
    StockFacts(dash, name);
    var pre, p := ["bin"], Render(["bin", "sh", name]);
    assert pre + ["sh"] + [name] == ["bin", "sh", name] && pre + ["sh"] == ["bin", "sh"] && pre + ["dash"] == ["bin", "dash"];
    PlainParts(["bin", "sh"], [name]);
    LastLink(t, pre, "sh", 2, 0);
    CleanRelative(pre, ["dash"]);
    LinkFreeLookupAt(t, ["bin", "dash"], true, 1);
    PlainWalkIsWalk(t, 0, ["bin", "dash"]);
    WalkIsAt(t, ["bin", "dash"]);
    DirBase(["bin", "sh"], name);
    assert ["bin", "sh"] + [name] == ["bin", "sh", name];
    StockWritable(t, p);
    var slot := SlotOf(t, p);
    SlotNotDirectory(t, p);
    SeekRelativeLoops(t, slot, pre, "sh", 2, ["dash"], [name], 0);
  }

  lemma StockFacts(dash: Entry, name: string)
    requires dash.kind == Directory && Plain(name)
    ensures var t := StockTree(dash);
            && t.root == 0 && 2 in t.nodes && t.nodes[2].entry.target == "dash" == Join(["dash"], '/')
            && 3 in t.nodes && t.nodes[3].entry == dash && t.nodes[3].children == map[]
            && AllPlain(["bin", "sh"] + [name]) && AllPlain(["bin", "dash"]) && AllPlain(["bin"]) && AllPlain(["dash"])
  {
  }

  lemma StockWritable(t: Tree, p: string)
    requires Closed(t) && Lookup(t, Dir(p), true, 0) == Found(3) && 3 in t.nodes
    requires t.nodes[3].entry.kind == Directory && t.nodes[3].children == map[]
    ensures Writable(t, p) && SlotOf(t, p) == Slot(3, Base(p))
  {
    hide Lookup, Dir, Base;
  }
}
