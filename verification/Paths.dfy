/** Slash-separated paths: the functions of Go's `path` package that the
    filesystem uses, and its own `Clean` and `split` (node/internal/vfs/vfs.go). */
module Paths {
  import opened Text

  /** A component that names an entry: not empty, not `.` or `..`, no slash. */
  predicate Plain(part: string) {
    part != "" && part != "." && part != ".." && '/' !in part
  }

  predicate AllPlain(parts: seq<string>) {
    forall i :: 0 <= i < |parts| ==> Plain(parts[i])
  }

  /** The absolute path with these components. */
  function Render(parts: seq<string>): string {
    "/" + Join(parts, '/')
  }

  /** Lexical processing of `.`, `..` and empty components, after those already kept. */
  function Resolve(rooted: bool, kept: seq<string>, parts: seq<string>): seq<string>
    decreases |parts|
  {
    if parts == [] then kept
    else if parts[0] == "" || parts[0] == "." then Resolve(rooted, kept, parts[1..])
    else if parts[0] != ".." then Resolve(rooted, kept + [parts[0]], parts[1..])
    else if kept != [] && kept[|kept| - 1] != ".." then Resolve(rooted, kept[..|kept| - 1], parts[1..])
    else if rooted then Resolve(rooted, kept, parts[1..])
    else Resolve(rooted, kept + [".."], parts[1..])
  }

  /** `path.Clean`. */
  function PathClean(p: string): string {
    if p == "" then "."
    else
      var rooted := p[0] == '/';
      var parts := Resolve(rooted, [], Split(p, '/'));
      if rooted then Render(parts) else if parts == [] then "." else Join(parts, '/')
  }

  /** `path.Join` of two elements. */
  function PathJoin(a: string, b: string): string {
    if a == "" && b == "" then "" else if a == "" then PathClean(b) else if b == "" then PathClean(a)
    else PathClean(a + "/" + b)
  }

  /** The index of the last slash, or -1. */
  function LastSlash(p: string): (i: int)
    ensures -1 <= i < |p|
    ensures i >= 0 ==> p[i] == '/'
    ensures forall j :: i < j < |p| ==> p[j] != '/'
  {
    if p == "" then -1 else if p[|p| - 1] == '/' then |p| - 1 else LastSlash(p[..|p| - 1])
  }

  /** `path.Dir`. */
  function Dir(p: string): string {
    PathClean(p[..LastSlash(p) + 1])
  }

  function TrimSlashes(p: string): string {
    if p != "" && p[|p| - 1] == '/' then TrimSlashes(p[..|p| - 1]) else p
  }

  /** `path.Base`. */
  function Base(p: string): string {
    if p == "" then "."
    else
      var trimmed := TrimSlashes(p);
      var base := trimmed[LastSlash(trimmed) + 1..];
      if base == "" then "/" else base
  }

  /** `vfs.Clean`: a path against a working directory. */
  function Clean(cwd: string, p: string): string {
    if p == "" then cwd
    else
      var c := PathClean(if p[0] == '/' then p else PathJoin(cwd, p));
      if c != "" && c[0] == '/' then c else "/" + c
  }

  /** `vfs.split`. */
  function Components(p: string): seq<string> {
    var c := PathClean(p);
    if c == "/" || c == "." then [] else Split(if c != "" && c[0] == '/' then c[1..] else c, '/')
  }

  // ----- Clean absolute paths and their components correspond.

  lemma {:induction false} ResolvePlain(rooted: bool, kept: seq<string>, parts: seq<string>)
    requires AllPlain(parts)
    ensures Resolve(rooted, kept, parts) == kept + parts
    decreases |parts|
  {
    if parts != [] {
      ResolvePlain(rooted, kept + [parts[0]], parts[1..]);
      assert kept + [parts[0]] + parts[1..] == kept + parts;
    }
  }

  lemma {:induction false} ResolveAppendEmpty(rooted: bool, kept: seq<string>, parts: seq<string>)
    ensures Resolve(rooted, kept, parts + [""]) == Resolve(rooted, kept, parts)
    decreases |parts|
  {
    if parts == [] {
      assert [""][1..] == [];
      assert parts + [""] == [""];
    } else {
      assert (parts + [""])[1..] == parts[1..] + [""];
      ResolveAppendEmpty(rooted, kept, parts[1..]);
      ResolveAppendEmpty(rooted, kept + [parts[0]], parts[1..]);
      if kept != [] {
        ResolveAppendEmpty(rooted, kept[..|kept| - 1], parts[1..]);
      }
      ResolveAppendEmpty(rooted, kept + [".."], parts[1..]);
    }
  }

  /** Resolving a rooted path never leaves the root: only plain components remain. */
  lemma {:induction false} ResolveRooted(kept: seq<string>, parts: seq<string>)
    requires AllPlain(kept) && forall i :: 0 <= i < |parts| ==> '/' !in parts[i]
    ensures AllPlain(Resolve(true, kept, parts))
    decreases |parts|
  {
    if parts != [] {
      if parts[0] == "" || parts[0] == "." {
        ResolveRooted(kept, parts[1..]);
      } else if parts[0] != ".." {
        ResolveRooted(kept + [parts[0]], parts[1..]);
      } else if kept != [] {
        ResolveRooted(kept[..|kept| - 1], parts[1..]);
      } else {
        ResolveRooted(kept, parts[1..]);
      }
    }
  }

  lemma ResolveLeadingEmpty(rooted: bool, parts: seq<string>)
    ensures Resolve(rooted, [], [""] + parts) == Resolve(rooted, [], parts)
  {
    assert ([""] + parts)[1..] == parts;
  }

  lemma SplitRender(parts: seq<string>)
    requires AllPlain(parts)
    ensures Split(Render(parts), '/') == [""] + if parts == [] then [""] else parts
  {
    assert Render(parts) == "" + ['/'] + Join(parts, '/');
    SplitCons("", Join(parts, '/'), '/');
    if parts == [] {
      SplitPiece("", '/');
    } else {
      SplitJoin(parts, '/');
    }
  }

  lemma CleanRender(parts: seq<string>)
    requires AllPlain(parts)
    ensures PathClean(Render(parts)) == Render(parts)
  {
    SplitRender(parts);
    var rest := if parts == [] then [""] else parts;
    ResolveLeadingEmpty(true, rest);
    if parts == [] {
      ResolveLeadingEmpty(true, []);
      assert [""] + [] == [""];
    } else {
      ResolvePlain(true, [], parts);
      assert [] + parts == parts;
    }
  }

  /** `split` finds the components of a clean absolute path. */
  lemma ComponentsRender(parts: seq<string>)
    requires AllPlain(parts)
    ensures Components(Render(parts)) == parts
  {
    CleanRender(parts);
    if parts == [] {
      assert Render([]) == "/";
    } else {
      SplitJoin(parts, '/');
      assert Render(parts)[1..] == Join(parts, '/');
      JoinNonEmpty(parts);
    }
  }

  lemma JoinNonEmpty(parts: seq<string>)
    requires parts != [] && AllPlain(parts)
    ensures Join(parts, '/') != ""
  {
  }

  lemma {:induction false} JoinSnoc(parts: seq<string>, last: string)
    ensures Join(parts + [last], '/') == if parts == [] then last else Join(parts, '/') + "/" + last
  {
    if |parts| <= 1 {
      assert parts + [last] == if parts == [] then [last] else [parts[0], last];
      assert |parts| == 1 ==> [parts[0], last][1..] == [last];
    } else {
      JoinSnoc(parts[1..], last);
      assert (parts + [last])[1..] == parts[1..] + [last];
    }
  }

  lemma LastSlashOf(stem: string, last: string)
    requires stem != "" && stem[|stem| - 1] == '/' && '/' !in last
    ensures LastSlash(stem + last) == |stem| - 1
  {
    hide LastSlash;
    var p := stem + last;
    assert p[|stem| - 1] == '/';
    assert forall j :: |stem| <= j < |p| ==> p[j] == last[j - |stem|];
  }

  /** The directory of a path with components `parts + [last]`, up to its last slash. */
  lemma RenderSnoc(parts: seq<string>, last: string)
    requires AllPlain(parts + [last])
    ensures var stem := if parts == [] then "/" else Render(parts) + "/";
            Render(parts + [last]) == stem + last && LastSlash(Render(parts + [last])) == |stem| - 1
  {
    hide LastSlash, Join;
    JoinSnoc(parts, last);
    assert (parts + [last])[|parts|] == last;
    LastSlashOf(if parts == [] then "/" else Render(parts) + "/", last);
  }

  /** `Dir` and `Base` take a clean absolute path apart. */
  lemma DirBase(parts: seq<string>, last: string)
    requires AllPlain(parts + [last])
    ensures Dir(Render(parts + [last])) == Render(parts)
    ensures Base(Render(parts + [last])) == last
  {
    var p := Render(parts + [last]);
    RenderSnoc(parts, last);
    assert (parts + [last])[|parts|] == last;
    assert AllPlain(parts) by { assert forall i :: 0 <= i < |parts| ==> parts[i] == (parts + [last])[i]; }
    if parts == [] {
      CleanRender([]);
      assert p[..LastSlash(p) + 1] == "/" == Render([]);
    } else {
      CleanRenderSlash(parts);
      assert p[..LastSlash(p) + 1] == Render(parts) + "/";
    }
    assert p[|p| - 1] == last[|last| - 1] != '/';
    assert TrimSlashes(p) == p;
  }

  lemma CleanRenderSlash(parts: seq<string>)
    requires parts != [] && AllPlain(parts)
    ensures PathClean(Render(parts) + "/") == Render(parts)
  {
    var p := Render(parts) + "/";
    assert p == "" + ['/'] + (Join(parts, '/') + "/");
    SplitCons("", Join(parts, '/') + "/", '/');
    JoinSnoc(parts, "");
    assert Join(parts + [""], '/') == Join(parts, '/') + "/" + "" == Join(parts, '/') + "/";
    SplitJoin(parts + [""], '/');
    ResolveLeadingEmpty(true, parts + [""]);
    ResolveAppendEmpty(true, [], parts);
    ResolvePlain(true, [], parts);
    assert [] + parts == parts;
  }

  /** Whatever the shell is given, relative to a clean absolute working
      directory, becomes a clean absolute path. */
  lemma CleanIsRender(cwd: seq<string>, p: string) returns (parts: seq<string>)
    requires AllPlain(cwd)
    ensures AllPlain(parts) && Clean(Render(cwd), p) == Render(parts)
  {
    if p == "" {
      parts := cwd;
    } else {
      var q := if p[0] == '/' then p else Render(cwd) + "/" + p;
      parts := Resolve(true, [], Split(q, '/'));
      ResolveRooted([], Split(q, '/'));
      assert q[0] == '/' && PathClean(q) == Render(parts);
      CleanRender(parts);
    }
  }

  // ----- What `.`, `..` and empty pieces do, as laws of whole paths.

  predicate NoSlashes(pieces: seq<string>) {
    forall i :: 0 <= i < |pieces| ==> '/' !in pieces[i]
  }

  lemma {:induction false} ResolveConcat(rooted: bool, kept: seq<string>, a: seq<string>, b: seq<string>)
    ensures Resolve(rooted, kept, a + b) == Resolve(rooted, Resolve(rooted, kept, a), b)
    decreases |a|
  {
    if a == [] {
      assert a + b == b;
    } else {
      assert (a + b)[1..] == a[1..] + b;
      ResolveConcat(rooted, kept, a[1..], b);
      ResolveConcat(rooted, kept + [a[0]], a[1..], b);
      if kept != [] {
        ResolveConcat(rooted, kept[..|kept| - 1], a[1..], b);
      }
      ResolveConcat(rooted, kept + [".."], a[1..], b);
    }
  }

  /** Pieces that leave what is kept as it is can be left out anywhere. */
  lemma ResolveWithout(kept: seq<string>, a: seq<string>, gone: seq<string>, b: seq<string>)
    requires forall k: seq<string> :: Resolve(true, k, gone) == k
    ensures Resolve(true, kept, a + gone + b) == Resolve(true, kept, a + b)
  {
    hide Resolve;
    assert a + gone + b == a + (gone + b);
    ResolveConcat(true, kept, a, gone + b);
    ResolveConcat(true, Resolve(true, kept, a), gone, b);
    ResolveConcat(true, kept, a, b);
  }

  /** An absolute path is cleaned by resolving its pieces, from any directory. */
  lemma CleanPieces(cwd: string, pieces: seq<string>)
    requires NoSlashes(pieces)
    ensures Clean(cwd, Render(pieces)) == Render(Resolve(true, [], pieces))
  {
    hide Resolve;
    var p := Render(pieces);
    assert p == "" + ['/'] + Join(pieces, '/');
    SplitCons("", Join(pieces, '/'), '/');
    if pieces == [] {
      SplitPiece("", '/');
      assert [""] + [""] == ["", ""] && [""] + [] == [""];
      ResolveLeadingEmpty(true, [""]);
      ResolveLeadingEmpty(true, []);
    } else {
      SplitJoin(pieces, '/');
      ResolveLeadingEmpty(true, pieces);
    }
  }

  lemma NoSlashesWithout(a: seq<string>, gone: seq<string>, b: seq<string>)
    requires NoSlashes(a + gone + b)
    ensures NoSlashes(a + b)
  {
    var all := a + gone + b;
    assert forall i :: 0 <= i < |a| ==> a[i] == all[i];
    assert forall i :: 0 <= i < |b| ==> b[i] == all[|a| + |gone| + i];
  }

  lemma CleanWithout(cwd: string, a: seq<string>, gone: seq<string>, b: seq<string>)
    requires NoSlashes(a + gone + b) && forall k: seq<string> :: Resolve(true, k, gone) == k
    ensures Clean(cwd, Render(a + gone + b)) == Clean(cwd, Render(a + b))
  {
    hide Clean, Resolve, Join;
    NoSlashesWithout(a, gone, b);
    CleanPieces(cwd, a + gone + b);
    CleanPieces(cwd, a + b);
    ResolveWithout([], a, gone, b);
  }

  /** A name followed by `..` cancels, anywhere in a path. */
  lemma NameThenUp(cwd: string, a: seq<string>, name: string, b: seq<string>)
    requires NoSlashes(a + [name, ".."] + b) && Plain(name)
    ensures Clean(cwd, Render(a + [name, ".."] + b)) == Clean(cwd, Render(a + b))
  {
    hide Clean;
    forall k: seq<string> ensures Resolve(true, k, [name, ".."]) == k {
      assert [name, ".."][1..] == [".."] && [".."][1..] == [];
      assert (k + [name])[..|k|] == k;
    }
    CleanWithout(cwd, a, [name, ".."], b);
  }

  /** `.` and nothing between slashes vanish. */
  lemma HereVanishes(cwd: string, a: seq<string>, here: string, b: seq<string>)
    requires NoSlashes(a + [here] + b) && (here == "." || here == "")
    ensures Clean(cwd, Render(a + [here] + b)) == Clean(cwd, Render(a + b))
  {
    hide Clean;
    assert forall k: seq<string> :: Resolve(true, k, [here]) == k;
    CleanWithout(cwd, a, [here], b);
  }

  /** There is nothing above the root. */
  lemma UpFromRoot(cwd: string, b: seq<string>)
    requires NoSlashes([".."] + b)
    ensures Clean(cwd, Render([".."] + b)) == Clean(cwd, Render(b))
  {
    hide Clean;
    assert [".."] + b == [] + [".."] + b && [] + b == b;
    NoSlashesWithout([], [".."], b);
    CleanPieces(cwd, [".."] + b);
    CleanPieces(cwd, b);
    assert ([".."] + b)[1..] == b;
  }

  lemma CleanOfRelative(cwd: string, p: string)
    requires cwd != "" && cwd[0] == '/' && p != "" && p[0] != '/'
    ensures Clean(cwd, p) == Clean("/", cwd + "/" + p)
  {
    var q := cwd + "/" + p;
    assert q[0] == '/';
    ResolveRooted([], Split(q, '/'));
    CleanRender(Resolve(true, [], Split(q, '/')));
  }

  /** A path that is not absolute is taken from the working directory, and an
      empty one is the working directory. */
  lemma RelativePath(cwd: seq<string>, p: string)
    requires AllPlain(cwd) && (p == "" || p[0] != '/')
    ensures Clean(Render(cwd), p) == Clean("/", Render(cwd) + "/" + p)
  {
    if p == "" {
      CleanRender(cwd);
      if cwd == [] {
        assert Render(cwd) + "/" + p == Render(["", ""]);
        assert ["", ""][1..] == [""];
        CleanPieces("/", ["", ""]);
      } else {
        CleanRenderSlash(cwd);
        assert Render(cwd) + "/" + p == Render(cwd) + "/";
      }
    } else {
      CleanOfRelative(Render(cwd), p);
    }
  }

  // ----- So going up `n` levels drops the last `n` components.

  function Ups(n: nat): seq<string> {
    if n == 0 then [] else [".."] + Ups(n - 1)
  }

  function Climbed(cwd: seq<string>, n: nat): seq<string> {
    cwd[..if n <= |cwd| then |cwd| - n else 0]
  }

  lemma {:induction false} UpsNoSlashes(n: nat)
    ensures NoSlashes(Ups(n))
  {
    if n > 0 {
      UpsNoSlashes(n - 1);
    }
  }

  lemma {:induction false} ClimbClean(from: string, cwd: seq<string>, n: nat, more: seq<string>)
    requires AllPlain(cwd) && NoSlashes(more)
    ensures Clean(from, Render(cwd + Ups(n) + more)) == Clean(from, Render(Climbed(cwd, n) + more))
    decreases n
  {
    hide Clean, Join, Resolve;
    UpsNoSlashes(n);
    if n == 0 {
      assert cwd + Ups(0) == cwd == Climbed(cwd, 0);
    } else if cwd == [] {
      UpsNoSlashes(n - 1);
      assert cwd + Ups(n) + more == [".."] + (Ups(n - 1) + more);
      UpFromRoot(from, Ups(n - 1) + more);
      assert [] + Ups(n - 1) + more == Ups(n - 1) + more;
      ClimbClean(from, [], n - 1, more);
    } else {
      var up, name := cwd[..|cwd| - 1], cwd[|cwd| - 1];
      UpsNoSlashes(n - 1);
      assert cwd + Ups(n) + more == up + [name, ".."] + (Ups(n - 1) + more);
      NameThenUp(from, up, name, Ups(n - 1) + more);
      assert up + (Ups(n - 1) + more) == up + Ups(n - 1) + more;
      ClimbClean(from, up, n - 1, more);
      assert Climbed(up, n - 1) == Climbed(cwd, n);
    }
  }

  /** From a directory, `../` written `n` times and then plain names lead to the
      directory `n` levels up, or the root, and from there down those names. */
  lemma UpAndDown(cwd: seq<string>, n: nat, more: seq<string>)
    requires AllPlain(cwd) && AllPlain(more)
    ensures Clean(Render(cwd), Join(Ups(n) + more, '/')) == Render(Climbed(cwd, n) + more)
  {
    hide Clean, Join, Resolve;
    var up := Climbed(cwd, n);
    UpsNoSlashes(n);
    if Ups(n) + more == [] {
      CleanEmpty(Render(cwd));
      assert n == 0 && up + more == cwd;
    } else {
      PieceFirst(Ups(n) + more, n);
      RelativePath(cwd, Join(Ups(n) + more, '/'));
      JoinTwo(cwd, Ups(n) + more);
      assert cwd + (Ups(n) + more) == cwd + Ups(n) + more;
      ClimbClean("/", cwd, n, more);
      CleanPlain(up + more);
    }
  }

  lemma CleanEmpty(cwd: string)
    ensures Clean(cwd, Join([], '/')) == cwd
  {
  }

  lemma CleanPlain(parts: seq<string>)
    requires AllPlain(parts)
    ensures Clean("/", Render(parts)) == Render(parts)
  {
    CleanRender(parts);
  }

  lemma PieceFirst(pieces: seq<string>, n: nat)
    requires pieces != [] && pieces[0] != "" && '/' !in pieces[0]
    ensures Join(pieces, '/') != "" && Join(pieces, '/')[0] != '/'
  {
    assert Join(pieces, '/')[0] == pieces[0][0] && pieces[0][0] in pieces[0];
  }

  /** Joining a directory and what is below it, cleaned. */
  lemma JoinTwo(cwd: seq<string>, below: seq<string>)
    requires below != [] && NoSlashes(cwd + below)
    ensures Clean("/", Render(cwd) + "/" + Join(below, '/')) == Clean("/", Render(cwd + below))
  {
    hide Clean, Resolve, Join;
    if cwd == [] {
      assert Render(cwd) + "/" + Join(below, '/') == Render([""] + below) by { JoinCons("", below); RenderNothing(); }
      assert [""] + below == [] + [""] + below && cwd + below == [] + below;
      assert forall i :: 0 <= i < |below| ==> below[i] == (cwd + below)[i];
      HereVanishes("/", [], "", below);
    } else {
      JoinAppend(cwd, below);
      assert Render(cwd) + "/" + Join(below, '/') == Render(cwd + below);
    }
  }

  lemma RenderNothing()
    ensures Render([]) == "/"
  {
  }

  lemma JoinCons(first: string, rest: seq<string>)
    requires rest != []
    ensures Join([first] + rest, '/') == first + "/" + Join(rest, '/')
  {
    assert ([first] + rest)[1..] == rest;
  }

  lemma {:induction false} JoinAppend(a: seq<string>, b: seq<string>)
    requires a != [] && b != []
    ensures Join(a + b, '/') == Join(a, '/') + "/" + Join(b, '/')
    decreases |a|
  {
    if |a| == 1 {
      assert (a + b)[1..] == b;
    } else {
      assert (a + b)[1..] == a[1..] + b;
      JoinAppend(a[1..], b);
    }
  }

  // ----- The last component of any path.

  /** What follows the last slash, whatever is before it; slashes at the end do not
      count. */
  lemma BaseLast(before: string, name: string)
    requires name != "" && '/' !in name
    ensures Base(before + "/" + name) == name
  {
    hide LastSlash;
    var p := before + "/" + name;
    assert p == (before + "/") + name;
    LastSlashOf(before + "/", name);
    assert p[|p| - 1] == name[|name| - 1] && name[|name| - 1] in name;
    assert TrimSlashes(p) == p;
    assert p[|before| + 1..] == name;
  }

  lemma BaseTrailing(p: string)
    requires p != ""
    ensures Base(p + "/") == Base(p)
  {
    hide LastSlash;
    assert (p + "/")[..|p|] == p;
    assert TrimSlashes(p + "/") == TrimSlashes(p);
  }
}
