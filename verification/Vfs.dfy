/** The per-session filesystem (node/internal/vfs/vfs.go). */
module Vfs {
  import opened Basics
  import opened Paths
  import opened Trees
  import opened TreeEdits
  import opened Lookups
  import opened StoredBytes

  /** What one session may push into the tree: 32 MiB. */
  const MAX_WRITE_BYTES: nat := 33554432

  function NewFile(name: string, mode: nat, content: seq<Byte>): Entry {
    Entry(name, File, mode, "", content, None, true)
  }

  function NewDirectory(name: string, mode: nat, attackerWritten: bool): Entry {
    Entry(name, Directory, mode, "", [], None, attackerWritten)
  }

  datatype ReadResult = Data(bytes: seq<Byte>) | ReadFailed(error: FsError)

  /** What reading a path gives; `computed` renders the dynamic files. */
  function Read(t: Tree, p: string, computed: nat -> seq<Byte>): ReadResult
    requires Closed(t)
  {
    var found := Lookup(t, p, true, 0);
    if found.Failed? then ReadFailed(found.error)
    else
      var e := t.nodes[found.id].entry;
      if e.kind == Directory then ReadFailed(IsDir)
      else if e.dynamic.Some? then Data(computed(e.dynamic.value))
      else Data(e.content)
  }

  /** Why a write of `size` bytes to `p` is refused, in the order the checks are made. */
  function WriteRefused(t: Tree, written: nat, p: string, size: nat): Option<FsError>
    requires Closed(t)
  {
    var parent := Lookup(t, Dir(p), true, 0);
    if written + size > MAX_WRITE_BYTES then Some(QuotaReached)
    else if parent.Failed? then Some(parent.error)
    else if t.nodes[parent.id].entry.kind != Directory then Some(NotDir)
    else if Base(p) in t.nodes[parent.id].children
            && t.nodes[t.nodes[parent.id].children[Base(p)]].entry.kind == Directory then Some(IsDir)
    else None
  }

  /** What the filesystem holds: the tree, the bytes written so far, and the id of
      the next node. */
  datatype Disk = Disk(tree: Tree, written: nat, nextId: Id)

  /** No node has the next id or a later one. */
  ghost predicate Steady(d: Disk) {
    Closed(d.tree) && forall id :: id in d.tree.nodes ==> id < d.nextId
  }

  /** The filesystem after a write. */
  function AfterWrite(d: Disk, p: string, content: seq<Byte>, mode: nat): Disk
    requires Closed(d.tree)
  {
    if WriteRefused(d.tree, d.written, p, |content|).Some? then d
    else
      var parent := Lookup(d.tree, Dir(p), true, 0).id;
      Disk(Link(d.tree, parent, Base(p), d.nextId, NewFile(Base(p), mode, content)), d.written + |content|, d.nextId + 1)
  }

  /** The filesystem after an append. */
  function AfterAppend(d: Disk, p: string, content: seq<Byte>): Disk
    requires Closed(d.tree)
  {
    var found := Lookup(d.tree, p, true, 0);
    if found.Failed? then AfterWrite(d, p, content, 420)
    else if AppendRefused(d.tree, d.written, p, |content|).Some? then d
    else
      d.(tree := Retouch(d.tree, found.id, Extended(d.tree.nodes[found.id].entry, content)), written := d.written + |content|)
  }

  lemma AfterWriteSteady(d: Disk, p: string, content: seq<Byte>, mode: nat)
    requires Steady(d)
    ensures Steady(AfterWrite(d, p, content, mode))
  {
    hide Lookup, Dir, Base, Link, Closed;
    if WriteRefused(d.tree, d.written, p, |content|).None? {
      var parent := Lookup(d.tree, Dir(p), true, 0).id;
      LinkClosed(d.tree, parent, Base(p), d.nextId, NewFile(Base(p), mode, content));
      LinkedNodes(d.tree, parent, Base(p), d.nextId, NewFile(Base(p), mode, content));
    }
  }

  /** What planting a node leaves of the others. */
  lemma LinkFrame(t: Tree, d: Id, key: string, id: Id, entry: Entry)
    requires d in t.nodes && id !in t.nodes && entry.kind != Symlink
    ensures var u := Link(t, d, key, id, entry);
            && u.nodes.Keys == t.nodes.Keys + {id} && u.nodes[id].entry == entry
            && (forall n :: n in t.nodes ==> u.nodes[n].entry == t.nodes[n].entry)
            && NoNewLinks(t, u)
  {
  }

  /** What changing a node's data leaves of the others. */
  lemma RetouchFrame(t: Tree, id: Id, entry: Entry)
    requires id in t.nodes && entry.kind == t.nodes[id].entry.kind && entry.target == t.nodes[id].entry.target
    ensures var u := Retouch(t, id, entry);
            && u.nodes.Keys == t.nodes.Keys && u.nodes[id].entry == entry
            && (forall n :: n in t.nodes && n != id ==> u.nodes[n].entry == t.nodes[n].entry)
            && NoNewLinks(t, u)
  {
  }

  lemma SameEntries(t: Tree, u: Tree)
    requires u.nodes.Keys == t.nodes.Keys
    requires forall id :: id in t.nodes ==>
      u.nodes[id].entry.kind == t.nodes[id].entry.kind && u.nodes[id].entry.target == t.nodes[id].entry.target
    ensures NoNewLinks(t, u)
  {
  }

  lemma LinkedNodes(t: Tree, d: Id, key: string, id: Id, entry: Entry)
    requires d in t.nodes
    ensures Link(t, d, key, id, entry).nodes.Keys == t.nodes.Keys + {id}
  {
  }

  lemma RefusedStays(d: Disk, p: string, content: seq<Byte>, mode: nat)
    requires Closed(d.tree)
    ensures WriteRefused(d.tree, d.written, p, |content|).Some? ==> AfterWrite(d, p, content, mode) == d
    ensures AppendRefused(d.tree, d.written, p, |content|).Some? ==> AfterAppend(d, p, content) == d
  {
    hide Lookup, Dir, Base;
  }

  lemma AfterAppendSteady(d: Disk, p: string, content: seq<Byte>)
    requires Steady(d)
    ensures Steady(AfterAppend(d, p, content))
  {
    hide Lookup, AfterWrite, Closed, Retouch;
    AfterWriteSteady(d, p, content, 420);
    var found := Lookup(d.tree, p, true, 0);
    if found.Found? {
      RetouchClosed(d.tree, found.id, Extended(d.tree.nodes[found.id].entry, content));
    }
  }

  lemma RetouchClosed(t: Tree, id: Id, entry: Entry)
    requires Closed(t) && id in t.nodes && entry.kind == t.nodes[id].entry.kind
    ensures Closed(Retouch(t, id, entry)) && Retouch(t, id, entry).nodes.Keys == t.nodes.Keys
  {
  }

  /** `place` is where `p` puts an entry: the directory that the parent of `p`
      resolves to, then the last component. */
  ghost predicate IsPlace(t: Tree, p: string, place: seq<string>)
    requires Closed(t)
  {
    && place != [] && place[|place| - 1] == Base(p)
    && Lookup(t, Dir(p), true, 0).Found?
    && At(t, place[..|place| - 1]) == Some(Lookup(t, Dir(p), true, 0).id)
  }

  // ----- Making directories on the way.

  /** The first `n` names lead through directories, as far as they lead anywhere. */
  ghost predicate Passable(t: Tree, parts: seq<string>, n: nat)
    requires n <= |parts|
  {
    forall i :: 0 <= i < n && EntryAt(t, parts[..i]).Some? ==> EntryAt(t, parts[..i]).value.kind == Directory
  }

  /** Exactly the missing directories on the way to `parts` were added. */
  ghost predicate Made(t: Tree, u: Tree, parts: seq<string>, mode: nat) {
    forall q :: EntryAt(u, q) ==
      if EntryAt(t, q).Some? then EntryAt(t, q)
      else if q != [] && q <= parts then Some(NewDirectory(q[|q| - 1], mode, false)) else None
  }

  lemma RootThere(t: Tree, parts: seq<string>, mode: nat)
    requires Closed(t)
    ensures t.root in t.nodes && At(t, parts[..0]) == Some(t.root) && Made(t, t, parts[..0], mode) && Passable(t, parts, 0)
  {
    assert parts[..0] == [];
  }

  lemma NextPassable(before: Tree, t: Tree, parts: seq<string>, i: nat, mode: nat, cur: Id)
    requires i < |parts| && Closed(t) && At(t, parts[..i]) == Some(cur) && cur in t.nodes
    requires Made(before, t, parts[..i], mode) && Passable(before, parts, i)
    requires t == before || t.nodes[cur].entry.kind == Directory
    ensures t.nodes[cur].entry.kind == Directory ==> Passable(before, parts, i + 1)
    ensures t.nodes[cur].entry.kind != Directory ==> t == before && !Passable(before, parts, |parts|)
    ensures t.nodes[cur].entry.kind != Directory ==> t.nodes[cur].children == map[]
  {
    hide At;
    assert EntryAt(t, parts[..i]) == Some(t.nodes[cur].entry);
  }

  /** Along names that lead somewhere, nothing needs making. */
  lemma FoundThere(t: Tree, parts: seq<string>, i: nat, mode: nat, cur: Id)
    requires Closed(t) && i < |parts| && At(t, parts[..i]) == Some(cur) && cur in t.nodes && parts[i] in t.nodes[cur].children
    ensures var next := t.nodes[cur].children[parts[i]];
            next in t.nodes && At(t, parts[..i + 1]) == Some(next) && Made(t, t, parts[..i + 1], mode)
  {
    hide Walk;
    assert parts[..i + 1] == parts[..i] + [parts[i]];
    ChildAt(t, parts[..i], cur, parts[i]);
    forall q | q <= parts[..i + 1] ensures EntryAt(t, q).Some? {
      var rest := parts[..i + 1][|q|..];
      assert parts[..i + 1] == q + rest;
      WalkConcat(t, t.root, q, rest);
      WalkInNodes(t, t.root, q);
    }
  }

  lemma NothingBelow(t: Tree, place: seq<string>)
    requires At(t, place).None?
    ensures forall q :: place <= q ==> EntryAt(t, q).None?
  {
    hide Walk;
    forall q | place <= q ensures EntryAt(t, q).None? {
      assert q == place + q[|place|..];
      WalkConcat(t, t.root, place, q[|place|..]);
    }
  }

  /** One missing directory is made. */
  lemma MadeOne(before: Tree, t: Tree, u: Tree, parts: seq<string>, i: nat, mode: nat, cur: Id, id: Id)
    requires i < |parts| && IsTree(t) && Closed(u) && At(t, parts[..i]) == Some(cur) && cur in t.nodes && id !in t.nodes
    requires Made(before, t, parts[..i], mode) && parts[i] !in t.nodes[cur].children
    requires u == Link(t, cur, parts[i], id, NewDirectory(parts[i], mode, false))
    requires Planted(t, u, parts[..i] + [parts[i]], NewDirectory(parts[i], mode, false))
    ensures Made(before, u, parts[..i + 1], mode)
    ensures id in u.nodes && At(u, parts[..i + 1]) == Some(id)
    ensures u.nodes[id].entry.kind == Directory && u.nodes[id].children == map[]
  {
    hide At, OnePathEach, NamedByKey, Link;
    var place := parts[..i + 1];
    assert place == parts[..i] + [parts[i]];
    NewChild(t, u, parts[..i], cur, parts[i], id, NewDirectory(parts[i], mode, false));
    NothingBelow(t, place);
    forall q
      ensures EntryAt(u, q) ==
        if EntryAt(before, q).Some? then EntryAt(before, q)
        else if q != [] && q <= place then Some(NewDirectory(q[|q| - 1], mode, false)) else None
    {
      assert q <= place <==> q == place || q <= parts[..i] by { PrefixOfSnoc(q, parts[..i], parts[i]); }
      assert place <= q && q <= place ==> q == place;
    }
  }

  lemma PrefixOfSnoc(q: seq<string>, s: seq<string>, x: string)
    ensures q <= s + [x] <==> q == s + [x] || q <= s
  {
    if q <= s + [x] && |q| <= |s| {
      assert q == (s + [x])[..|q|] == s[..|q|];
    }
  }

  lemma NewChild(t: Tree, u: Tree, at: seq<string>, d: Id, key: string, id: Id, entry: Entry)
    requires IsTree(t) && At(t, at) == Some(d) && d in t.nodes && id !in t.nodes && key !in t.nodes[d].children
    requires u == Link(t, d, key, id, entry)
    ensures At(t, at + [key]).None? && At(u, at + [key]) == Some(id) && id in u.nodes && u.nodes[id] == Node(entry, map[])
  {
    hide OnePathEach, NamedByKey;
    WalkConcat(t, t.root, at, [key]);
    WalkStep(t, d, key, []);
    assert [key] + [] == [key];
    LinkAt(t, at, d, key, id, entry, at + [key]);
  }

  /** What a write does to the entries that paths lead to. */
  lemma WritePlants(d: Disk, p: string, content: seq<Byte>, mode: nat) returns (place: seq<string>)
    requires IsTree(d.tree) && Steady(d) && WriteRefused(d.tree, d.written, p, |content|).None?
    ensures IsPlace(d.tree, p, place) && IsTree(AfterWrite(d, p, content, mode).tree)
    ensures Planted(d.tree, AfterWrite(d, p, content, mode).tree, place, NewFile(Base(p), mode, content))
  {
    hide Lookup, Dir, Base, Link, OnePathEach, NamedByKey, Planted, EntryAt, At;
    var parent := Lookup(d.tree, Dir(p), true, 0).id;
    var at := LookupReaches(d.tree, Dir(p), true, 0);
    place := at + [Base(p)];
    assert place[..|place| - 1] == at;
    LinkIsTree(d.tree, at, parent, Base(p), d.nextId, NewFile(Base(p), mode, content));
  }

  /** What extending a file does to them. */
  lemma AppendRetouches(d: Disk, p: string, content: seq<Byte>) returns (place: seq<string>)
    requires IsTree(d.tree) && Lookup(d.tree, p, true, 0).Found? && AppendRefused(d.tree, d.written, p, |content|).None?
    ensures var id := Lookup(d.tree, p, true, 0).id;
            && At(d.tree, place) == Some(id) && IsTree(AfterAppend(d, p, content).tree)
            && Retouched(d.tree, AfterAppend(d, p, content).tree, place, Extended(d.tree.nodes[id].entry, content))
  {
    hide Lookup, Dir, Base, Retouch, OnePathEach, NamedByKey, Retouched, EntryAt, At;
    var id := Lookup(d.tree, p, true, 0).id;
    place := LookupReaches(d.tree, p, true, 0);
    RetouchIsTree(d.tree, place, id, Extended(d.tree.nodes[id].entry, content));
  }

  class FS {
    var tree: Tree
    var written: nat
    var nextId: Id
    /** The tree as it was built, and the bytes in it. */
    ghost const origin: Tree
    ghost const built: nat

    function View(): Disk
      reads this
    {
      Disk(tree, written, nextId)
    }

    ghost predicate Valid()
      reads this
    {
      && IsTree(tree)
      && (forall id :: id in tree.nodes ==> id < nextId)
      && written <= MAX_WRITE_BYTES
      && AllBytes(tree) <= built + written
      && NoNewLinks(origin, tree)
    }

    /** Any tree, such as the stock one, with nothing written to it yet. */
    constructor Built(t: Tree, nextId: Id)
      requires IsTree(t) && forall id :: id in t.nodes ==> id < nextId
      ensures Valid() && tree == origin == t && written == 0 && built == AllBytes(t)
    {
      tree, written, this.nextId, built, origin := t, 0, nextId, AllBytes(t), t;
    }

    /** A root and nothing else. */
    constructor ()
      ensures Valid() && written == 0 && built == 0
      ensures forall q :: EntryAt(tree, q).Some? <==> q == []
    {
      var root := Node(Entry("/", Directory, 0x1ED, "", [], None, false), map[]);
      tree := Tree(map[0 := root], 0);
      origin := Tree(map[0 := root], 0);
      written, nextId, built := 0, 1, 0;
      new;
      assert forall q :: At(tree, q).Some? ==> q == [];
      assert AllBytes(tree) == 0 by {
        TotalSplit(tree.nodes, tree.nodes.Keys, 0);
        assert tree.nodes.Keys - {0} == {};
      }
    }

    method ReadFile(p: string, computed: nat -> seq<Byte>) returns (r: ReadResult)
      requires Valid()
      ensures r == Read(tree, p, computed)
    {
      var found := LookupDepth(tree, p, true, 0);
      if found.Failed? {
        return ReadFailed(found.error);
      }
      var e := tree.nodes[found.id].entry;
      if e.kind == Directory {
        return ReadFailed(IsDir);
      }
      if e.dynamic.Some? {
        return Data(computed(e.dynamic.value));
      }
      return Data(e.content);
    }

    /** Puts a new childless node under a directory. */
    method Plant(d: Id, ghost at: seq<string>, entry: Entry)
      requires Valid() && At(tree, at) == Some(d) && d in tree.nodes && tree.nodes[d].entry.kind == Directory
      requires AllBytes(tree) + |entry.content| <= built + written && entry.kind != Symlink
      modifies this`tree, this`nextId
      ensures Valid() && Planted(old(tree), tree, at + [entry.name], entry)
      ensures tree == Link(old(tree), d, entry.name, old(nextId), entry) && nextId == old(nextId) + 1
    {
      hide OnePathEach, NamedByKey, AllBytes, Planted, EntryAt, At, NoNewLinks, Link, Closed;
      LinkIsTree(tree, at, d, entry.name, nextId, entry);
      var u := Link(tree, d, entry.name, nextId, entry);
      LinkFrame(tree, d, entry.name, nextId, entry);
      AllBytesUpdate(tree, u, nextId);
      LinksStay(origin, tree, u);
      tree := u;
      nextId := nextId + 1;
    }

    /** Stores attacker-supplied content, within the session's quota. A file or
        link of that name is replaced, not followed. */
    method WriteFile(p: string, content: seq<Byte>, mode: nat) returns (err: Option<FsError>, ghost place: seq<string>)
      requires Valid()
      modifies this`tree, this`nextId, this`written
      ensures Valid()
      ensures View() == AfterWrite(old(View()), p, content, mode)
      ensures err == WriteRefused(old(tree), old(written), p, |content|)
      ensures err.Some? ==> tree == old(tree) && written == old(written) && nextId == old(nextId)
      ensures err.None? ==> written == old(written) + |content| && IsPlace(old(tree), p, place)
                            && Planted(old(tree), tree, place, NewFile(Base(p), mode, content))
    {
      hide Dir, Base, Lookup, OnePathEach, NamedByKey, AllBytes, Planted, EntryAt, At, Link, NoNewLinks;
      place := [];
      if written + |content| > MAX_WRITE_BYTES {
        return Some(QuotaReached), place;
      }
      var parent := LookupDepth(tree, Dir(p), true, 0);
      if parent.Failed? {
        return Some(parent.error), place;
      }
      if tree.nodes[parent.id].entry.kind != Directory {
        return Some(NotDir), place;
      }
      var siblings := tree.nodes[parent.id].children;
      if Base(p) in siblings && tree.nodes[siblings[Base(p)]].entry.kind == Directory {
        return Some(IsDir), place;
      }
      ghost var at := LookupReaches(tree, Dir(p), true, 0);
      place := at + [Base(p)];
      assert place[..|place| - 1] == at;
      written := written + |content|;
      Plant(parent.id, at, NewFile(Base(p), mode, content));
      return None, place;
    }

    /** Adds to an existing file, creating it when absent. */
    method Append(p: string, content: seq<Byte>) returns (err: Option<FsError>, ghost place: seq<string>)
      requires Valid()
      modifies this`tree, this`nextId, this`written
      ensures Valid()
      ensures View() == AfterAppend(old(View()), p, content)
      ensures err == AppendRefused(old(tree), old(written), p, |content|)
      ensures err.Some? ==> tree == old(tree) && written == old(written)
      ensures err.None? ==> written == old(written) + |content|
      ensures err.None? && Lookup(old(tree), p, true, 0).Failed? ==>
        IsPlace(old(tree), p, place) && Planted(old(tree), tree, place, NewFile(Base(p), 420, content))
      ensures err.None? && Lookup(old(tree), p, true, 0).Found? ==>
        var id := Lookup(old(tree), p, true, 0).id;
        At(old(tree), place) == Some(id)
        && Retouched(old(tree), tree, place, Extended(old(tree).nodes[id].entry, content))
    {
      hide Dir, Base, Lookup, OnePathEach, NamedByKey, AllBytes, Planted, EntryAt, At, Retouched, Retouch, NoNewLinks;
      place := [];
      var found := LookupDepth(tree, p, true, 0);
      if found.Failed? {
        err, place := WriteFile(p, content, 420);
        return;
      }
      var e := tree.nodes[found.id].entry;
      if e.kind == Directory {
        return Some(IsDir), place;
      }
      if written + |content| > MAX_WRITE_BYTES {
        return Some(QuotaReached), place;
      }
      place := LookupReaches(tree, p, true, 0);
      written := written + |content|;
      Touched(found.id, place, Extended(e, content));
      return None, place;
    }

    /** Replaces a node's data in place. */
    method Touched(id: Id, ghost place: seq<string>, entry: Entry)
      requires Valid() && At(tree, place) == Some(id) && id in tree.nodes
      requires entry.name == tree.nodes[id].entry.name && entry.kind == tree.nodes[id].entry.kind
      requires entry.target == tree.nodes[id].entry.target
      requires AllBytes(tree) + |entry.content| - |tree.nodes[id].entry.content| <= built + written
      modifies this`tree
      ensures Valid() && Retouched(old(tree), tree, place, entry) && tree == Retouch(old(tree), id, entry)
    {
      hide OnePathEach, NamedByKey, AllBytes, Retouched, EntryAt, At, NoNewLinks, Retouch, Closed;
      RetouchIsTree(tree, place, id, entry);
      var u := Retouch(tree, id, entry);
      RetouchFrame(tree, id, entry);
      AllBytesUpdate(tree, u, id);
      LinksStay(origin, tree, u);
      tree := u;
    }

    /** Creates a single directory. */
    method Mkdir(p: string, mode: nat) returns (err: Option<FsError>, ghost place: seq<string>)
      requires Valid()
      modifies this`tree, this`nextId
      ensures Valid()
      ensures err == MkdirRefused(old(tree), p)
      ensures err.Some? ==> tree == old(tree)
      ensures err.None? ==> IsPlace(old(tree), p, place) && Planted(old(tree), tree, place, NewDirectory(Base(p), mode, true))
    {
      hide Dir, Base, Lookup, OnePathEach, NamedByKey, AllBytes, Planted, EntryAt, At, Link, NoNewLinks;
      place := [];
      var parent := LookupDepth(tree, Dir(p), true, 0);
      if parent.Failed? {
        return Some(parent.error), place;
      }
      if tree.nodes[parent.id].entry.kind != Directory {
        return Some(NotDir), place;
      }
      if Base(p) in tree.nodes[parent.id].children {
        return Some(Exists), place;
      }
      ghost var at := LookupReaches(tree, Dir(p), true, 0);
      place := at + [Base(p)];
      assert place[..|place| - 1] == at;
      Plant(parent.id, at, NewDirectory(Base(p), mode, true));
      return None, place;
    }

    /** Creates a directory and any missing parents, following no links. It fails
        only by writing to the nil map of something that is not a directory. */
    method MkdirAll(p: string, mode: nat) returns (err: Option<FsError>)
      requires Valid()
      modifies this`tree, this`nextId
      ensures Valid()
      ensures err == if Passable(old(tree), Components(p), |Components(p)|) then None else Some(NilMapWrite)
      ensures err.Some? ==> tree == old(tree)
      ensures err.None? ==> Made(old(tree), tree, Components(p), mode)
    {
      hide Components, OnePathEach, NamedByKey, Closed, AllBytes, Planted, EntryAt, At, Link, Made, Passable, Walk, NoNewLinks;
      var parts := Components(p);
      ghost var before := tree;
      var cur := tree.root;
      RootThere(tree, parts, mode);
      for i := 0 to |parts|
        invariant Valid() && cur in tree.nodes && At(tree, parts[..i]) == Some(cur)
        invariant Made(before, tree, parts[..i], mode) && Passable(before, parts, i)
        invariant tree == before || (tree.nodes[cur].entry.kind == Directory && tree.nodes[cur].children == map[])
      {
        NextPassable(before, tree, parts, i, mode, cur);
        if parts[i] !in tree.nodes[cur].children {
          if tree.nodes[cur].entry.kind != Directory {
            return Some(NilMapWrite);
          }
          ghost var t := tree;
          Plant(cur, parts[..i], NewDirectory(parts[i], mode, false));
          MadeOne(before, t, tree, parts, i, mode, cur, nextId - 1);
          cur := nextId - 1;
        } else {
          FoundThere(before, parts, i, mode, cur);
          cur := tree.nodes[cur].children[parts[i]];
        }
      }
      assert parts[..|parts|] == parts;
      return None;
    }

    /** Deletes a child from its directory. */
    method Detach(d: Id, ghost at: seq<string>, key: string)
      requires Valid() && At(tree, at) == Some(d) && d in tree.nodes
      modifies this`tree
      ensures Valid() && Pruned(old(tree), tree, at + [key])
    {
      hide OnePathEach, NamedByKey, AllBytes, Pruned, EntryAt, At, Unlink, NoNewLinks;
      UnlinkIsTree(tree, at, d, key);
      UnlinkEntries(tree, d, key);
      var u := Unlink(tree, d, key);
      AllBytesSame(tree, u);
      SameEntries(tree, u);
      LinksStay(origin, tree, u);
      tree := u;
    }

    /** Unlinks a file, or a directory if it is empty or `recursive` is set. */
    method Remove(p: string, recursive: bool) returns (err: Option<FsError>, ghost place: seq<string>)
      requires Valid()
      modifies this`tree
      ensures Valid()
      ensures err == RemoveRefused(old(tree), p, recursive)
      ensures err.Some? ==> tree == old(tree)
      ensures err.None? ==> IsPlace(old(tree), p, place) && Pruned(old(tree), tree, place)
    {
      hide Dir, Base, Lookup, OnePathEach, NamedByKey, AllBytes, Pruned, EntryAt, At, Unlink, NoNewLinks;
      place := [];
      if p == "/" {
        return Some(Permission), place;
      }
      var parent := LookupDepth(tree, Dir(p), true, 0);
      if parent.Failed? {
        return Some(parent.error), place;
      }
      var siblings := tree.nodes[parent.id].children;
      if Base(p) !in siblings {
        return Some(NotFound), place;
      }
      var n := tree.nodes[siblings[Base(p)]];
      if n.entry.kind == Directory && n.children != map[] && !recursive {
        return Some(NotEmpty), place;
      }
      ghost var at := LookupReaches(tree, Dir(p), true, 0);
      place := at + [Base(p)];
      assert place[..|place| - 1] == at;
      Detach(parent.id, at, Base(p));
      return None, place;
    }

    /** Takes a child from one directory and files it in another. */
    method Relink(ghost fa: seq<string>, f: Id, a: string, n: Id, ghost da: seq<string>, d: Id, b: string)
      requires Valid() && Movable(tree, fa, f, a, n, da, d) && tree.nodes[d].entry.kind == Directory
      modifies this`tree
      ensures Valid()
      ensures if fa + [a] <= da then Pruned(old(tree), tree, fa + [a]) else Moved(old(tree), tree, fa + [a], da + [b])
    {
      hide OnePathEach, NamedByKey, AllBytes, Pruned, Moved, EntryAt, At, Move, NoNewLinks;
      MoveIsTree(tree, fa, f, a, n, da, d, b);
      MoveEntries(tree, fa, f, a, n, da, d, b);
      var u := Move(tree, f, a, d, b);
      AllBytesSame(tree, u);
      SameEntries(tree, u);
      LinksStay(origin, tree, u);
      tree := u;
    }

    /** Moves an entry. Moving a directory beneath itself detaches it. Where the
        destination's parent is no directory, the source is already gone when the
        Go code fails. */
    method Rename(from: string, to: string) returns (err: Option<FsError>, ghost source: seq<string>, ghost place: seq<string>)
      requires Valid()
      modifies this`tree
      ensures Valid()
      ensures err == RenameRefused(old(tree), from, to)
      ensures err.Some? && err != Some(NilMapWrite) ==> tree == old(tree)
      ensures err == Some(NilMapWrite) ==> IsPlace(old(tree), from, source) && Pruned(old(tree), tree, source)
      ensures err.None? ==> IsPlace(old(tree), from, source) && IsPlace(old(tree), to, place)
      ensures err.None? ==> if source <= place[..|place| - 1] then Pruned(old(tree), tree, source)
                            else Moved(old(tree), tree, source, place)
    {
      hide Dir, Base, Lookup, OnePathEach, NamedByKey, AllBytes, Pruned, Moved, EntryAt, At, Unlink, Move, NoNewLinks;
      source, place := [], [];
      var fromParent := LookupDepth(tree, Dir(from), true, 0);
      if fromParent.Failed? {
        return Some(fromParent.error), source, place;
      }
      var siblings := tree.nodes[fromParent.id].children;
      if Base(from) !in siblings {
        return Some(NotFound), source, place;
      }
      var n := siblings[Base(from)];
      var toParent := LookupDepth(tree, Dir(to), true, 0);
      if toParent.Failed? {
        return Some(toParent.error), source, place;
      }
      ghost var fa := LookupReaches(tree, Dir(from), true, 0);
      source := fa + [Base(from)];
      assert source[..|source| - 1] == fa;
      if tree.nodes[toParent.id].entry.kind != Directory {
        Detach(fromParent.id, fa, Base(from));
        return Some(NilMapWrite), source, place;
      }
      ghost var da := LookupReaches(tree, Dir(to), true, 0);
      place := da + [Base(to)];
      assert place[..|place| - 1] == da;
      Relink(fa, fromParent.id, Base(from), n, da, toParent.id, Base(to));
      return None, source, place;
    }

    /** Sets the permission bits of an existing entry. */
    method Chmod(p: string, mode: nat) returns (err: Option<FsError>, ghost place: seq<string>)
      requires Valid()
      modifies this`tree
      ensures Valid()
      ensures err == if Lookup(old(tree), p, true, 0).Failed? then Some(Lookup(old(tree), p, true, 0).error) else None
      ensures err.Some? ==> tree == old(tree)
      ensures err.None? ==>
        var id := Lookup(old(tree), p, true, 0).id;
        At(old(tree), place) == Some(id)
        && Retouched(old(tree), tree, place, old(tree).nodes[id].entry.(mode := mode, attackerWritten := true))
    {
      hide Lookup, OnePathEach, NamedByKey, AllBytes, EntryAt, At, Retouched;
      place := [];
      var found := LookupDepth(tree, p, true, 0);
      if found.Failed? {
        return Some(found.error), place;
      }
      place := LookupReaches(tree, p, true, 0);
      Touched(found.id, place, tree.nodes[found.id].entry.(mode := mode, attackerWritten := true));
      return None, place;
    }

    /** Updates the modification time, which is not modelled; creates an empty file when absent. */
    method Touch(p: string) returns (err: Option<FsError>, ghost place: seq<string>)
      requires Valid()
      modifies this`tree, this`nextId, this`written
      ensures Valid() && written == old(written)
      ensures Lookup(old(tree), p, true, 0).Found? ==> err.None? && tree == old(tree)
      ensures Lookup(old(tree), p, true, 0).Failed? ==> err == WriteRefused(old(tree), old(written), p, 0)
      ensures err.Some? ==> tree == old(tree)
      ensures Lookup(old(tree), p, true, 0).Failed? && err.None? ==>
        IsPlace(old(tree), p, place) && Planted(old(tree), tree, place, NewFile(Base(p), 420, []))
    {
      hide Dir, Base, Lookup, OnePathEach, NamedByKey, AllBytes, Planted, EntryAt, At, NoNewLinks;
      place := [];
      var found := LookupDepth(tree, p, true, 0);
      if found.Failed? {
        err, place := WriteFile(p, [], 420);
        return;
      }
      return None, place;
    }
  }

  datatype Operation =
    | OpWrite(p: string, content: seq<Byte>, mode: nat)
    | OpAppend(p: string, content: seq<Byte>)
    | OpMkdir(p: string, mode: nat)
    | OpMkdirAll(p: string, mode: nat)
    | OpRemove(p: string, recursive: bool)
    | OpRename(from: string, to: string)
    | OpChmod(p: string, mode: nat)
    | OpTouch(p: string)

  lemma LinksStay(t: Tree, mid: Tree, u: Tree)
    ensures NoNewLinks(t, t)
    ensures NoNewLinks(t, mid) && NoNewLinks(mid, u) ==> NoNewLinks(t, u)
  {
  }

  /** A whole session: whatever is done to the filesystem, whether or not each
      operation succeeds, what is reachable from the root stays a tree and holds
      no more than what was built in plus what the quota admitted, and no link is
      new or has a new target. */
  method Session(fs: FS, ops: seq<Operation>)
    requires fs.Valid()
    modifies fs
    ensures fs.Valid() && IsTree(fs.tree)
    ensures old(fs.written) <= fs.written <= MAX_WRITE_BYTES
    ensures ReachableBytes(fs.tree) <= fs.built + fs.written
    ensures NoNewLinks(fs.origin, fs.tree) && (PlainLinks(fs.origin) ==> PlainLinks(fs.tree))
  {
    hide IsTree, AllBytes, ReachableBytes, Planted, Pruned, Moved, Retouched, IsPlace, PlainLinks, NoNewLinks;
    for i := 0 to |ops|
      invariant fs.Valid() && old(fs.written) <= fs.written
    {
      match ops[i]
      case OpWrite(p, content, mode) => var _, _ := fs.WriteFile(p, content, mode);
      case OpAppend(p, content) => var _, _ := fs.Append(p, content);
      case OpMkdir(p, mode) => var _, _ := fs.Mkdir(p, mode);
      case OpMkdirAll(p, mode) => var _ := fs.MkdirAll(p, mode);
      case OpRemove(p, recursive) => var _, _ := fs.Remove(p, recursive);
      case OpRename(from, to) => var _, _, _ := fs.Rename(from, to);
      case OpChmod(p, mode) => var _, _ := fs.Chmod(p, mode);
      case OpTouch(p) => var _, _ := fs.Touch(p);
    }
    ReachableAtMostAll(fs.tree);
    NoNewLinksPlain(fs.origin, fs.tree);
  }

  function Extended(e: Entry, more: seq<Byte>): Entry {
    e.(content := e.content + more, attackerWritten := true)
  }

  function AppendRefused(t: Tree, written: nat, p: string, size: nat): Option<FsError>
    requires Closed(t)
  {
    var found := Lookup(t, p, true, 0);
    if found.Failed? then WriteRefused(t, written, p, size)
    else if t.nodes[found.id].entry.kind == Directory then Some(IsDir)
    else if written + size > MAX_WRITE_BYTES then Some(QuotaReached)
    else None
  }

  function MkdirRefused(t: Tree, p: string): Option<FsError>
    requires Closed(t)
  {
    var parent := Lookup(t, Dir(p), true, 0);
    if parent.Failed? then Some(parent.error)
    else if t.nodes[parent.id].entry.kind != Directory then Some(NotDir)
    else if Base(p) in t.nodes[parent.id].children then Some(Exists)
    else None
  }

  function RemoveRefused(t: Tree, p: string, recursive: bool): Option<FsError>
    requires Closed(t)
  {
    var parent := Lookup(t, Dir(p), true, 0);
    if p == "/" then Some(Permission)
    else if parent.Failed? then Some(parent.error)
    else if Base(p) !in t.nodes[parent.id].children then Some(NotFound)
    else
      var n := t.nodes[t.nodes[parent.id].children[Base(p)]];
      if n.entry.kind == Directory && n.children != map[] && !recursive then Some(NotEmpty) else None
  }

  function RenameRefused(t: Tree, from: string, to: string): Option<FsError>
    requires Closed(t)
  {
    var fromParent, toParent := Lookup(t, Dir(from), true, 0), Lookup(t, Dir(to), true, 0);
    if fromParent.Failed? then Some(fromParent.error)
    else if Base(from) !in t.nodes[fromParent.id].children then Some(NotFound)
    else if toParent.Failed? then Some(toParent.error)
    else if t.nodes[toParent.id].entry.kind != Directory then Some(NilMapWrite)
    else None
  }
}
