/** When the filesystem's operations succeed, and with what error they fail, told by
    what is at which path (node/internal/vfs/vfs.go). Parent paths without links. */
module VfsAnswers {
  import opened Basics
  import opened Paths
  import opened Trees
  import opened TreeEdits
  import opened Lookups
  import opened MidPathLinks
  import opened Vfs
  import opened VfsLaws

  /** Why a link-free path leads nowhere. */
  ghost function Reason(t: Tree, parts: seq<string>): FsError {
    if Blocked(t, parts) then NotDir else NotFound
  }

  /** Looking up a link-free path. */
  lemma LookupAnswer(t: Tree, parts: seq<string>)
    requires Closed(t) && AllPlain(parts) && LinkFree(t, parts)
    ensures Lookup(t, Render(parts), true, 0) ==
      if EntryAt(t, parts).Some? then Found(At(t, parts).value) else Failed(Reason(t, parts))
    ensures EntryAt(t, parts).Some? <==> At(t, parts).Some?
    ensures At(t, parts).Some? ==> At(t, parts).value in t.nodes
  {
    hide Render, Lookup, Blocked, Walk;
    LinkFreeLookup(t, parts, true);
    PlainWalkIsWalk(t, t.root, parts);
    assert parts[..0] == [] && parts[0..] == parts;
    RootAt(t);
    if PlainWalk(t, t.root, parts).Failed? {
      WalkError(t, parts, 0, t.root);
      BlockedIs(t, parts);
    } else {
      WalkInNodes(t, t.root, parts);
    }
  }

  lemma BlockedIs(t: Tree, parts: seq<string>)
    ensures Blocked(t, parts) <==> exists j :: 0 <= j < |parts| && BlocksAt(t, parts, j)
  {
  }

  /** The parent of a path, and the child it names. */
  lemma ParentAnswer(t: Tree, up: seq<string>, name: string)
    requires Closed(t) && AllPlain(up + [name]) && LinkFree(t, up)
    ensures Base(Render(up + [name])) == name
    ensures Lookup(t, Dir(Render(up + [name])), true, 0) ==
      if EntryAt(t, up).Some? then Found(At(t, up).value) else Failed(Reason(t, up))
    ensures EntryAt(t, up).Some? ==>
      var d := At(t, up).value;
      && At(t, up).Some? && d in t.nodes && t.nodes[d].entry == EntryAt(t, up).value
      && (name in t.nodes[d].children <==> EntryAt(t, up + [name]).Some?)
      && (name in t.nodes[d].children ==>
            t.nodes[d].children[name] in t.nodes && t.nodes[t.nodes[d].children[name]].entry == EntryAt(t, up + [name]).value
            && At(t, up + [name]) == Some(t.nodes[d].children[name]))
  {
    hide Render, Lookup, Dir, Base, Walk, LinkFree, Reason, Plain;
    DirBase(up, name);
    PlainParts(up, [name]);
    LookupAnswer(t, up);
    if At(t, up).Some? {
      var d := At(t, up).value;
      WalkConcat(t, t.root, up, [name]);
      WalkStep(t, d, name, []);
      assert [name] + [] == [name];
      if name in t.nodes[d].children {
        ChildAt(t, up, d, name);
      }
      WalkNothing(t);
    }
  }

  lemma WalkNothing(t: Tree)
    ensures forall id: Id :: Walk(t, id, []) == Some(id)
  {
  }

  /** A write is refused past 32 MiB, where the parent leads nowhere or is no directory,
      and where a directory has the name; and not otherwise. */
  lemma WriteAnswer(t: Tree, written: nat, up: seq<string>, name: string, size: nat)
    requires Closed(t) && AllPlain(up + [name]) && LinkFree(t, up)
    ensures WriteRefused(t, written, Render(up + [name]), size) ==
      if written + size > 32 * 1024 * 1024 then Some(QuotaReached)
      else if EntryAt(t, up).None? then Some(Reason(t, up))
      else if EntryAt(t, up).value.kind != Directory then Some(NotDir)
      else if EntryAt(t, up + [name]).Some? && EntryAt(t, up + [name]).value.kind == Directory then Some(IsDir)
      else None
  {
    hide Render, Lookup, Dir, Base, At, EntryAt, Reason, LinkFree, Closed;
    ParentAnswer(t, up, name);
  }

  /** A directory is made exactly where the parent is one and nothing has the name. */
  lemma MkdirAnswer(t: Tree, up: seq<string>, name: string)
    requires Closed(t) && AllPlain(up + [name]) && LinkFree(t, up)
    ensures MkdirRefused(t, Render(up + [name])) ==
      if EntryAt(t, up).None? then Some(Reason(t, up))
      else if EntryAt(t, up).value.kind != Directory then Some(NotDir)
      else if EntryAt(t, up + [name]).Some? then Some(Exists)
      else None
  {
    hide Render, Lookup, Dir, Base, At, EntryAt, Reason, LinkFree, Closed;
    ParentAnswer(t, up, name);
  }

  /** Something is below this path. */
  ghost predicate Occupied(t: Tree, parts: seq<string>) {
    exists k :: EntryAt(t, parts + [k]).Some?
  }

  lemma OccupiedIs(t: Tree, parts: seq<string>, id: Id)
    requires Closed(t) && At(t, parts) == Some(id) && id in t.nodes
    ensures Occupied(t, parts) <==> t.nodes[id].children != map[]
  {
    hide Walk;
    WalkNothing(t);
    forall k ensures EntryAt(t, parts + [k]).Some? <==> k in t.nodes[id].children {
      WalkConcat(t, t.root, parts, [k]);
      WalkStep(t, id, k, []);
      assert [k] + [] == [k];
    }
    if t.nodes[id].children != map[] {
      var k :| k in t.nodes[id].children;
      assert EntryAt(t, parts + [k]).Some?;
    }
  }

  /** What is at a path is removed, unless it is a directory with something in it and
      removal is not recursive; the root never is. */
  lemma RemoveAnswer(t: Tree, up: seq<string>, name: string, recursive: bool)
    requires Closed(t) && AllPlain(up + [name]) && LinkFree(t, up)
    ensures RemoveRefused(t, Render(up + [name]), recursive) ==
      if EntryAt(t, up).None? then Some(Reason(t, up))
      else if EntryAt(t, up + [name]).None? then Some(NotFound)
      else if EntryAt(t, up + [name]).value.kind == Directory && Occupied(t, up + [name]) && !recursive then Some(NotEmpty)
      else None
    ensures RemoveRefused(t, "/", recursive) == Some(Permission)
  {
    hide Render, Lookup, Dir, Base, At, EntryAt, Reason, LinkFree, Closed, Occupied;
    ParentAnswer(t, up, name);
    NotTheRoot(up, name);
    if At(t, up + [name]).Some? && At(t, up + [name]).value in t.nodes {
      OccupiedIs(t, up + [name], At(t, up + [name]).value);
    }
  }

  lemma NotTheRoot(up: seq<string>, name: string)
    requires AllPlain(up + [name])
    ensures Render(up + [name]) != "/"
  {
    hide LastSlash, Text.Join;
    RenderSnoc(up, name);
    assert name == (up + [name])[|up|];
  }

  /** A move needs something to move and a directory to move it to; where the
      destination's parent is something else, the Go code fails after unlinking. */
  lemma RenameAnswer(t: Tree, up: seq<string>, name: string, upTo: seq<string>, nameTo: string)
    requires Closed(t) && AllPlain(up + [name]) && LinkFree(t, up) && AllPlain(upTo + [nameTo]) && LinkFree(t, upTo)
    ensures RenameRefused(t, Render(up + [name]), Render(upTo + [nameTo])) ==
      if EntryAt(t, up).None? then Some(Reason(t, up))
      else if EntryAt(t, up + [name]).None? then Some(NotFound)
      else if EntryAt(t, upTo).None? then Some(Reason(t, upTo))
      else if EntryAt(t, upTo).value.kind != Directory then Some(NilMapWrite)
      else None
  {
    hide Render, Lookup, Dir, Base, At, EntryAt, Reason, LinkFree, Closed;
    ParentAnswer(t, up, name);
    ParentAnswer(t, upTo, nameTo);
  }

  /** An append extends what is there, unless that is a directory or the quota is
      passed, and is a write where nothing is. */
  lemma AppendAnswer(t: Tree, written: nat, parts: seq<string>, size: nat)
    requires Closed(t) && AllPlain(parts) && LinkFree(t, parts)
    ensures AppendRefused(t, written, Render(parts), size) ==
      if EntryAt(t, parts).None? then WriteRefused(t, written, Render(parts), size)
      else if EntryAt(t, parts).value.kind == Directory then Some(IsDir)
      else if written + size > 32 * 1024 * 1024 then Some(QuotaReached)
      else None
  {
    hide Render, Reason, LinkFree, Closed, WriteRefused, Walk;
    LookupAnswer(t, parts);
  }

  // ----- What is there afterwards.

  /** What `stat` would show of a file just written, and of a directory just made. */
  lemma StatAfter(t: Tree, u: Tree, parts: seq<string>, mode: nat, content: seq<Byte>)
    requires parts != []
    ensures Planted(t, u, parts, NewFile(parts[|parts| - 1], mode, content)) ==>
      EntryAt(u, parts) == Some(Entry(parts[|parts| - 1], File, mode, "", content, None, true)) && !Occupied(u, parts)
    ensures Planted(t, u, parts, NewDirectory(parts[|parts| - 1], mode, true)) ==>
      EntryAt(u, parts) == Some(Entry(parts[|parts| - 1], Directory, mode, "", [], None, true)) && !Occupied(u, parts)
  {
    hide EntryAt;
    assert forall k :: parts <= parts + [k] && parts + [k] != parts;
  }

  /** Extending keeps everything of a file but its bytes and the attacker's mark. */
  lemma ExtendedIs(e: Entry, more: seq<Byte>)
    ensures Extended(e, more) == Entry(e.name, e.kind, e.mode, e.target, e.content + more, e.dynamic, true)
  {
  }

  /** A directory can be made once: a second attempt is told that it exists; and it is
      removed, not recursively, as long as nothing is put in it. */
  lemma MkdirThen(t: Tree, u: Tree, up: seq<string>, name: string, mode: nat)
    requires Closed(u) && AllPlain(up + [name]) && LinkFree(u, up) && EntryAt(t, up).Some?
    requires Planted(t, u, up + [name], NewDirectory(name, mode, true))
    ensures EntryAt(t, up).value.kind == Directory ==> MkdirRefused(u, Render(up + [name])) == Some(Exists)
    ensures RemoveRefused(u, Render(up + [name]), false) == None
  {
    hide Render, EntryAt, MkdirRefused, RemoveRefused, LinkFree, Closed;
    assert !(up + [name] <= up);
    StatAfter(t, u, up + [name], mode, []);
    MkdirAnswer(u, up, name);
    RemoveAnswer(u, up, name, false);
  }

  /** Once a file is in it, it is removed recursively only. */
  lemma WriteThenRemove(t: Tree, u: Tree, up: seq<string>, name: string, file: string, mode: nat, content: seq<Byte>)
    requires Closed(u) && AllPlain(up + [name]) && LinkFree(u, up)
    requires EntryAt(t, up).Some? && EntryAt(t, up + [name]).Some? && EntryAt(t, up + [name]).value.kind == Directory
    requires Planted(t, u, up + [name] + [file], NewFile(file, mode, content))
    ensures RemoveRefused(u, Render(up + [name]), false) == Some(NotEmpty)
    ensures RemoveRefused(u, Render(up + [name]), true) == None
  {
    hide Render, EntryAt, RemoveRefused, LinkFree, Closed;
    assert !(up + [name] + [file] <= up) && !(up + [name] + [file] <= up + [name]);
    assert EntryAt(u, up + [name] + [file]).Some?;
    assert Occupied(u, up + [name]);
    RemoveAnswer(u, up, name, false);
    RemoveAnswer(u, up, name, true);
  }

  /** A moved entry keeps everything but its name and the attacker's mark. */
  lemma RenamedIs(e: Entry, name: string)
    ensures Renamed(e, name) == Entry(name, e.kind, e.mode, e.target, e.content, e.dynamic, true)
  {
  }

  /** The directories made on the way are empty but for the next one, have the mode
      asked for, and are not marked as the attacker's. */
  lemma MadeOnTheWay(t: Tree, u: Tree, parts: seq<string>, mode: nat, q: seq<string>)
    requires Made(t, u, parts, mode) && q != [] && q <= parts && EntryAt(t, q).None?
    ensures EntryAt(u, q) == Some(Entry(q[|q| - 1], Directory, mode, "", [], None, false))
    ensures forall k :: EntryAt(t, q + [k]).None? && EntryAt(u, q + [k]).Some? ==> q + [k] <= parts
  {
    hide EntryAt;
    assert forall k :: q + [k] != [];
  }
}
