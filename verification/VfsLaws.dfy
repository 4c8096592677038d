/** What reading sees of writing, on paths without symbolic links. */
module VfsLaws {
  import opened Basics
  import opened Paths
  import opened Trees
  import opened TreeEdits
  import opened Lookups
  import opened Vfs

  /** Something that is not a directory stands on the way. */
  ghost predicate Blocked(t: Tree, parts: seq<string>) {
    exists j :: 0 <= j < |parts| && BlocksAt(t, parts, j)
  }

  ghost predicate BlocksAt(t: Tree, parts: seq<string>, j: nat)
    requires j <= |parts|
  {
    EntryAt(t, parts[..j]).Some? && EntryAt(t, parts[..j]).value.kind != Directory
  }

  /** Why a plain walk fails. */
  lemma {:induction false} WalkError(t: Tree, parts: seq<string>, i: nat, cur: Id)
    requires Closed(t) && i <= |parts| && cur in t.nodes && At(t, parts[..i]) == Some(cur)
    requires PlainWalk(t, cur, parts[i..]).Failed?
    ensures PlainWalk(t, cur, parts[i..]).error ==
      if exists j :: i <= j < |parts| && BlocksAt(t, parts, j) then NotDir else NotFound
    decreases |parts| - i
  {
    hide At, BlocksAt;
    BlocksHere(t, parts, i, cur);
    if t.nodes[cur].entry.kind == Directory {
      if parts[i] in t.nodes[cur].children {
        assert parts[i..][1..] == parts[i + 1..] && parts[..i + 1] == parts[..i] + [parts[i]];
        ChildAt(t, parts[..i], cur, parts[i]);
        WalkError(t, parts, i + 1, t.nodes[cur].children[parts[i]]);
        assert forall j :: i <= j < |parts| && BlocksAt(t, parts, j) ==> i + 1 <= j;
      } else {
        NothingBeyond(t, parts, i, cur);
      }
    }
  }

  lemma BlocksHere(t: Tree, parts: seq<string>, i: nat, cur: Id)
    requires i <= |parts| && cur in t.nodes && At(t, parts[..i]) == Some(cur)
    ensures BlocksAt(t, parts, i) <==> t.nodes[cur].entry.kind != Directory
  {
  }

  lemma NothingBeyond(t: Tree, parts: seq<string>, i: nat, cur: Id)
    requires Closed(t) && i < |parts| && cur in t.nodes && At(t, parts[..i]) == Some(cur)
    requires t.nodes[cur].entry.kind == Directory && parts[i] !in t.nodes[cur].children
    ensures forall j :: i <= j < |parts| ==> !BlocksAt(t, parts, j)
  {
    hide Walk;
    BlocksHere(t, parts, i, cur);
    forall j | i < j < |parts| ensures !BlocksAt(t, parts, j) {
      var rest := parts[i..j];
      assert parts[..j] == parts[..i] + rest && rest == [parts[i]] + rest[1..];
      WalkConcat(t, t.root, parts[..i], rest);
      WalkStep(t, cur, parts[i], rest[1..]);
    }
  }

  /** Reading a link-free path is reading the entry it leads to, or telling why
      there is none. */
  lemma ReadEntry(t: Tree, parts: seq<string>, computed: nat -> seq<Byte>)
    requires Closed(t) && AllPlain(parts) && LinkFree(t, parts)
    ensures var e := EntryAt(t, parts);
            Read(t, Render(parts), computed) ==
              if e.None? then ReadFailed(if Blocked(t, parts) then NotDir else NotFound)
              else if e.value.kind == Directory then ReadFailed(IsDir)
              else if e.value.dynamic.Some? then Data(computed(e.value.dynamic.value))
              else Data(e.value.content)
  {
    hide Render, Lookup, BlocksAt;
    LinkFreeLookup(t, parts, true);
    PlainWalkIsWalk(t, t.root, parts);
    assert parts[..0] == [] && parts[0..] == parts;
    if PlainWalk(t, t.root, parts).Failed? {
      WalkError(t, parts, 0, t.root);
    }
  }

  lemma {:induction false} SplitLast(parts: seq<string>)
    requires parts != [] && AllPlain(parts)
    ensures Dir(Render(parts)) == Render(parts[..|parts| - 1]) && Base(Render(parts)) == parts[|parts| - 1]
  {
    assert parts == parts[..|parts| - 1] + [parts[|parts| - 1]];
    DirBase(parts[..|parts| - 1], parts[|parts| - 1]);
  }

  /** Through a link-free parent, a path puts its entry at its own components. */
  lemma PlaceOf(t: Tree, parts: seq<string>, place: seq<string>)
    requires IsTree(t) && AllPlain(parts) && parts != [] && LinkFree(t, parts[..|parts| - 1])
    requires IsPlace(t, Render(parts), place)
    ensures place == parts
  {
    hide Render, Lookup, Dir, Base, PlainWalk, Walk, NamedByKey, Plain;
    var up := parts[..|parts| - 1];
    SplitLast(parts);
    LinkFreeLookup(t, up, true);
    PlainWalkIsWalk(t, t.root, up);
    assert At(t, up) == At(t, place[..|place| - 1]);
    assert place == place[..|place| - 1] + [place[|place| - 1]];
    assert parts == up + [parts[|parts| - 1]];
  }

  lemma LinkFreeAfterPlant(t: Tree, u: Tree, parts: seq<string>, entry: Entry)
    requires parts != [] && LinkFree(t, parts[..|parts| - 1]) && Planted(t, u, parts, entry) && entry.kind != Symlink
    ensures LinkFree(u, parts)
  {
    hide EntryAt;
    forall i | 0 <= i <= |parts| && EntryAt(u, parts[..i]).Some? ensures EntryAt(u, parts[..i]).value.kind != Symlink {
      if i == |parts| {
        assert parts[..i] == parts;
      } else {
        assert parts[..i] == parts[..|parts| - 1][..i];
        assert !(parts <= parts[..i]);
      }
    }
  }

  /** After a successful write, reading the same path gives exactly the bytes written. */
  lemma WriteReads(t: Tree, u: Tree, parts: seq<string>, place: seq<string>, mode: nat, content: seq<Byte>, computed: nat -> seq<Byte>)
    requires IsTree(t) && IsTree(u) && AllPlain(parts) && parts != [] && LinkFree(t, parts[..|parts| - 1])
    requires IsPlace(t, Render(parts), place) && Planted(t, u, place, NewFile(Base(Render(parts)), mode, content))
    ensures place == parts && Read(u, Render(parts), computed) == Data(content)
  {
    hide Render, Lookup, Dir, Base, IsTree, At, Read;
    PlaceOf(t, parts, place);
    LinkFreeAfterPlant(t, u, parts, NewFile(Base(Render(parts)), mode, content));
    TreeClosed(u);
    ReadEntry(u, parts, computed);
  }

  lemma TreeClosed(t: Tree)
    requires IsTree(t)
    ensures Closed(t)
  {
  }

  /** …and every other path reads as before, bytes or error, unless it leads on
      from the file written, where there is no directory now. */
  lemma OthersUnchanged(t: Tree, u: Tree, parts: seq<string>, mode: nat, content: seq<Byte>, other: seq<string>, computed: nat -> seq<Byte>)
    requires IsTree(t) && IsTree(u) && AllPlain(parts) && parts != [] && AllPlain(other) && other != parts
    requires Planted(t, u, parts, NewFile(parts[|parts| - 1], mode, content))
    requires EntryAt(t, parts).Some? ==> EntryAt(t, parts).value.kind != Directory
    requires LinkFree(t, other)
    ensures LinkFree(u, other)
    ensures Read(u, Render(other), computed) ==
      if parts <= other then ReadFailed(NotDir) else Read(t, Render(other), computed)
  {
    hide Render, Lookup, Dir, Base, Read, Walk;
    assert LinkFree(u, other);
    ReadEntry(t, other, computed);
    ReadEntry(u, other, computed);
    if parts <= other {
      assert other[..|parts|] == parts;
      assert BlocksAt(u, other, |parts|);
    } else {
      assert forall j :: 0 <= j <= |other| ==> !(parts <= other[..j]);
      assert other[..|other|] == other;
      forall j | 0 <= j < |other| ensures BlocksAt(u, other, j) <==> BlocksAt(t, other, j) {
        assert EntryAt(u, other[..j]) == EntryAt(t, other[..j]);
      }
    }
  }

  /** Appending to a stored file gives the old bytes followed by the new ones. */
  lemma AppendReads(t: Tree, u: Tree, parts: seq<string>, place: seq<string>, more: seq<Byte>, computed: nat -> seq<Byte>)
    requires IsTree(t) && IsTree(u) && AllPlain(parts) && LinkFree(t, parts)
    requires EntryAt(t, parts).Some? && EntryAt(t, parts).value.kind == File && EntryAt(t, parts).value.dynamic.None?
    requires Lookup(t, Render(parts), true, 0).Found? && At(t, place) == Some(Lookup(t, Render(parts), true, 0).id)
    requires Retouched(t, u, place, Extended(EntryAt(t, parts).value, more))
    ensures place == parts
    ensures Read(t, Render(parts), computed) == Data(EntryAt(t, parts).value.content)
    ensures Read(u, Render(parts), computed) == Data(EntryAt(t, parts).value.content + more)
  {
    hide Render, Lookup, Read, Walk;
    LinkFreeLookup(t, parts, true);
    PlainWalkIsWalk(t, t.root, parts);
    assert At(t, parts) == At(t, place);
    assert forall i :: 0 <= i <= |parts| ==> (parts[..i] == parts <==> i == |parts|);
    assert LinkFree(u, parts);
    ReadEntry(t, parts, computed);
    ReadEntry(u, parts, computed);
  }

  /** …and every other link-free path reads as before. */
  lemma OthersUnchangedByAppend(t: Tree, u: Tree, place: seq<string>, more: seq<Byte>, other: seq<string>, computed: nat -> seq<Byte>)
    requires Closed(t) && Closed(u) && EntryAt(t, place).Some? && AllPlain(other) && other != place
    requires Retouched(t, u, place, Extended(EntryAt(t, place).value, more))
    requires LinkFree(t, other)
    ensures LinkFree(u, other)
    ensures Read(u, Render(other), computed) == Read(t, Render(other), computed)
  {
    hide Render, Lookup, Read, EntryAt, Clean;
    forall i | 0 <= i <= |other| && EntryAt(u, other[..i]).Some?
      ensures EntryAt(t, other[..i]).Some? && EntryAt(u, other[..i]).value.kind == EntryAt(t, other[..i]).value.kind
    {
    }
    forall j | 0 <= j < |other| ensures BlocksAt(u, other, j) <==> BlocksAt(t, other, j) {
    }
    ReadEntry(t, other, computed);
    ReadEntry(u, other, computed);
  }

  /** The root is the one clean path where it fails: writing to `/` succeeds, by
      filing an entry named `/` in the root directory, and reading `/` still
      finds the directory. */
  lemma RootWriteNotRead(t: Tree, u: Tree, place: seq<string>, mode: nat, content: seq<Byte>, computed: nat -> seq<Byte>)
    requires IsTree(t) && IsTree(u) && IsPlace(t, Render([]), place)
    requires Planted(t, u, place, NewFile(Base(Render([])), mode, content))
    ensures place == ["/"] && Read(u, Render([]), computed) == ReadFailed(IsDir)
  {
    hide Render, Lookup, Dir, Base, Read, Walk, EntryAt;
    RootDirBase();
    RootEntry(t);
    RootEntry(u);
    LinkFreeLookup(t, [], true);
    assert At(t, place[..|place| - 1]) == At(t, []);
    assert place == place[..|place| - 1] + ["/"];
    ReadEntry(u, [], computed);
  }

  lemma RootEntry(t: Tree)
    requires Closed(t)
    ensures At(t, []) == Some(t.root) && EntryAt(t, []) == Some(t.nodes[t.root].entry) && LinkFree(t, [])
  {
  }

  lemma RootDirBase()
    ensures Dir(Render([])) == Render([]) && Base(Render([])) == "/"
  {
    assert Render([]) == "/";
    assert "/"[..1] == "/";
    CleanRender([]);
    assert "/"[..0] == "";
    assert TrimSlashes("/") == "";
  }

  /** So, over all clean absolute paths whose parent meets no link, a successful
      write can be read back exactly when the path is not the root. */
  lemma LinkFreeReadBackIff(t: Tree, u: Tree, parts: seq<string>, place: seq<string>, mode: nat, content: seq<Byte>, computed: nat -> seq<Byte>)
    requires IsTree(t) && IsTree(u) && AllPlain(parts) && (parts != [] ==> LinkFree(t, parts[..|parts| - 1]))
    requires IsPlace(t, Render(parts), place) && Planted(t, u, place, NewFile(Base(Render(parts)), mode, content))
    ensures Read(u, Render(parts), computed) == Data(content) <==> parts != []
  {
    hide Render, Lookup, Dir, Base, IsTree, At, Read, Planted, IsPlace;
    if parts == [] {
      RootWriteNotRead(t, u, place, mode, content, computed);
    } else {
      WriteReads(t, u, parts, place, mode, content, computed);
    }
  }
}
