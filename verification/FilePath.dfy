/** Absolute file names: the scan over the characters of a path, and the components it stands for. */
module FilePath {

  const SEP := '/'

  // What a path means: a stack of directories.

  /** The parts of a path between its separators; there is always at least one. */
  function Split(path: string): (parts: seq<string>)
    ensures |parts| >= 1
  {
    var n := PartLength(path);
    if n == |path| then [path] else [path[..n]] + Split(path[n + 1..])
  }

  /** The length of the first part. */
  function PartLength(path: string): (n: nat)
    ensures n <= |path| && SEP !in path[..n] && (n < |path| ==> path[n] == SEP)
  {
    if path == "" || path[0] == SEP then 0
    else
      var n := PartLength(path[1..]);
      assert path[..n + 1] == [path[0]] + path[1..][..n];
      n + 1
  }

  function Pop(dirs: seq<string>): (up: seq<string>)
    ensures |up| == if dirs == [] then 0 else |dirs| - 1
  {
    if dirs == [] then [] else dirs[..|dirs| - 1]
  }

  function Enter(dirs: seq<string>, part: string): seq<string> {
    if part == "." then dirs else if part == ".." then Pop(dirs) else dirs + [part]
  }

  /** A directory as a path with a separator at the end. */
  function Render(dirs: seq<string>): string
    decreases |dirs|
  {
    if dirs == [] then [SEP] else Render(Pop(dirs)) + dirs[|dirs| - 1] + [SEP]
  }

  function NoSlashAtEnd(path: string): string {
    if |path| > 1 then path[..|path| - 1] else path
  }

  /** The last part names a file, or the directory reached so far. */
  function Finish(dirs: seq<string>, part: string): string {
    if part == "." then NoSlashAtEnd(Render(dirs))
    else if part == ".." then NoSlashAtEnd(Render(Pop(dirs)))
    else Render(dirs) + part
  }

  function Resolve(dirs: seq<string>, parts: seq<string>): string
    requires |parts| >= 1
    decreases |parts|
  {
    if |parts| == 1 then Finish(dirs, parts[0]) else Resolve(Enter(dirs, parts[0]), parts[1..])
  }

  // The scan over characters, with what is written so far.

  /** The position of the last separator, or -1. */
  function LastSlash(path: string): (k: int)
    ensures -1 <= k < |path| && (k >= 0 ==> path[k] == SEP) && forall j :: k < j < |path| ==> path[j] != SEP
  {
    if path == "" then -1
    else if path[|path| - 1] == SEP then |path| - 1
    else LastSlash(path[..|path| - 1])
  }

  /** The parent of a directory written with a separator at the end. */
  function Parent(out: string): (parent: string)
    ensures 1 <= |parent| && (out != "" ==> |parent| <= |out|)
  {
    var k := if out == "" then -1 else LastSlash(out[..|out| - 1]);
    if k >= 0 then out[..k + 1] else [SEP]
  }

  function Scan(out: string, rest: string): string
    decreases |rest|
  {
    if rest == "" then out
    else if rest[0] == '.' && |rest| > 1 && rest[1] == SEP then Scan(out, rest[2..])
    else if rest == "." then NoSlashAtEnd(out)
    else if rest[0] == '.' && |rest| > 2 && rest[1] == '.' && rest[2] == SEP then Scan(Parent(out), rest[3..])
    else if rest == ".." then NoSlashAtEnd(Parent(out))
    else
      var n := PartLength(rest);
      if n == |rest| then out + rest else Scan(out + rest[..n + 1], rest[n + 1..])
  }

  /** The absolute name of a path; `cwd` is the working directory. */
  function AbsoluteName(cwd: string, path: string): string {
    if path != "" && path[0] == SEP then Scan("", path) else Scan(WithSlash(cwd), path)
  }

  function WithSlash(path: string): string {
    if path != "" && path[|path| - 1] != SEP then path + [SEP] else path
  }

  // The scan resolves components.

  ghost predicate NoSlashes(dirs: seq<string>) {
    forall k :: 0 <= k < |dirs| ==> SEP !in dirs[k]
  }

  lemma LastSlashOf(front: string, part: string)
    requires SEP !in part && front != "" && front[|front| - 1] == SEP
    ensures LastSlash(front + part) == |front| - 1
  {
    var k := LastSlash(front + part);
    assert (front + part)[|front| - 1] == SEP;
    assert forall j :: |front| <= j < |front + part| ==> (front + part)[j] in part;
  }

  lemma RenderEnds(dirs: seq<string>)
    ensures var r := Render(dirs); r != "" && r[0] == SEP && r[|r| - 1] == SEP
  {
  }

  lemma ParentIsPop(dirs: seq<string>)
    requires NoSlashes(dirs)
    ensures Parent(Render(dirs)) == Render(Pop(dirs))
  {
    hide LastSlash;
    if dirs == [] {
      assert Render(dirs)[..0] == "";
      assert LastSlash("") < 0;
    } else {
      ParentOf(Render(Pop(dirs)), dirs[|dirs| - 1]);
      RenderEnds(Pop(dirs));
    }
  }

  lemma ParentOf(front: string, part: string)
    requires SEP !in part && front != "" && front[|front| - 1] == SEP
    ensures Parent(front + part + [SEP]) == front
  {
    hide LastSlash;
    var out := front + part + [SEP];
    assert out[..|out| - 1] == front + part;
    LastSlashOf(front, part);
    assert out[..|front|] == front;
  }

  lemma SplitFirst(rest: string)
    ensures var n := PartLength(rest);
      Split(rest)[0] == rest[..n] && (n < |rest| <==> |Split(rest)| > 1)
      && (n < |rest| ==> Split(rest)[1..] == Split(rest[n + 1..]))
  {
  }

  /** The tests for dots are tests on the first part. */
  lemma DotParts(rest: string)
    ensures var part, more := Split(rest)[0], |Split(rest)| > 1;
      && (|rest| > 1 && rest[0] == '.' && rest[1] == SEP <==> part == "." && more)
      && (rest == "." <==> part == "." && !more)
      && (|rest| > 2 && rest[0] == '.' && rest[1] == '.' && rest[2] == SEP <==> part == ".." && more)
      && (rest == ".." <==> part == ".." && !more)
  {
    SplitFirst(rest);
    var n := PartLength(rest);
    assert n > 0 ==> rest[0] in rest[..n];
    assert n > 1 ==> rest[1] in rest[..n];
    assert n > 2 ==> rest[2] in rest[..n];
  }

  /** What the scan does with the first part. */
  lemma ScanByPart(out: string, rest: string)
    ensures var parts, n := Split(rest), PartLength(rest);
      var part := parts[0];
      if |parts| > 1 then
        n < |rest| && Scan(out, rest) ==
          Scan(if part == "." then out else if part == ".." then Parent(out) else out + (part + [SEP]), rest[n + 1..])
      else
        Scan(out, rest) ==
          if part == "." then NoSlashAtEnd(out) else if part == ".." then NoSlashAtEnd(Parent(out)) else out + part
  {
    hide Split, Parent;
    SplitFirst(rest);
    DotParts(rest);
    var n := PartLength(rest);
    if n < |rest| {
      assert rest[..n + 1] == rest[..n] + [SEP];
    } else {
      assert rest[..n] == rest;
      assert rest == "" ==> out + rest == out;
    }
  }

  /** Scanning behind a rendered directory is resolving from it. */
  lemma {:induction false} ScanResolves(dirs: seq<string>, rest: string)
    requires NoSlashes(dirs)
    ensures Scan(Render(dirs), rest) == Resolve(dirs, Split(rest))
    decreases |rest|
  {
    hide Scan, Split, Parent, Render, PartLength, NoSlashAtEnd;
    var part := Split(rest)[0];
    SplitFirst(rest);
    ParentIsPop(dirs);
    ScanByPart(Render(dirs), rest);
    if |Split(rest)| > 1 {
      RenderMore(dirs, part);
      ScanResolves(Enter(dirs, part), rest[PartLength(rest) + 1..]);
    }
  }

  lemma RenderMore(dirs: seq<string>, part: string)
    ensures Render(dirs + [part]) == Render(dirs) + (part + [SEP])
  {
    assert Pop(dirs + [part]) == dirs;
  }

  // What resolved paths look like.

  /** A component that stands for itself. */
  predicate Plain(part: string) {
    SEP !in part && part != "." && part != ".."
  }

  ghost predicate AllPlain(dirs: seq<string>) {
    forall k :: 0 <= k < |dirs| ==> Plain(dirs[k])
  }

  lemma SplitAllSlashless(path: string)
    ensures NoSlashes(Split(path))
  {
    hide PartLength;
  }

  /** A path without its last separator, as directories and a last part. */
  lemma NoSlashForm(dirs: seq<string>) returns (before: seq<string>, last: string)
    requires AllPlain(dirs)
    ensures AllPlain(before) && Plain(last) && NoSlashAtEnd(Render(dirs)) == Render(before) + last
  {
    if dirs == [] {
      before, last := [], "";
    } else {
      before, last := Pop(dirs), dirs[|dirs| - 1];
      RenderEnds(before);
    }
  }

  /** Resolving gives plain directories and a plain last part, which is empty behind a separator. */
  lemma {:induction false} ResolvedForm(dirs: seq<string>, parts: seq<string>)
      returns (before: seq<string>, last: string)
    requires AllPlain(dirs) && |parts| >= 1 && NoSlashes(parts)
    ensures AllPlain(before) && Plain(last) && Resolve(dirs, parts) == Render(before) + last
    decreases |parts|
  {
    hide Render, NoSlashAtEnd;
    if |parts| > 1 {
      before, last := ResolvedForm(Enter(dirs, parts[0]), parts[1..]);
    } else if parts[0] == "." {
      before, last := NoSlashForm(dirs);
    } else if parts[0] == ".." {
      before, last := NoSlashForm(Pop(dirs));
    } else {
      before, last := dirs, parts[0];
    }
  }

  lemma RenderLast(dirs: seq<string>)
    requires dirs != []
    ensures Render(dirs) == Render(Pop(dirs)) + (dirs[|dirs| - 1] + [SEP])
  {
  }

  lemma Associative(a: string, b: string, c: string)
    ensures a + b + c == a + (b + c)
  {
  }

  lemma PartsBehind(dirs: seq<string>, rest: seq<string>)
    requires dirs != []
    ensures [""] + Pop(dirs) + ([dirs[|dirs| - 1]] + rest) == [""] + dirs + rest
  {
  }

  /** A plain path splits into what it was rendered from. */
  lemma {:induction false} SplitRendered(dirs: seq<string>, rest: string)
    requires NoSlashes(dirs)
    ensures Split(Render(dirs) + rest) == [""] + dirs + Split(rest)
    decreases |dirs|
  {
    hide Split, Render;
    if dirs == [] {
      SplitAt("", rest);
      assert Render(dirs) + rest == "" + [SEP] + rest by { RenderRoot(); }
      assert [""] + dirs + Split(rest) == [""] + Split(rest);
    } else {
      var part := dirs[|dirs| - 1];
      RenderLast(dirs);
      Associative(Render(Pop(dirs)), part + [SEP], rest);
      SplitRendered(Pop(dirs), part + [SEP] + rest);
      SplitAt(part, rest);
      PartsBehind(dirs, Split(rest));
    }
  }

  lemma RenderRoot()
    ensures Render([]) == [SEP]
  {
  }

  lemma SplitAt(part: string, rest: string)
    requires SEP !in part
    ensures Split(part + [SEP] + rest) == [part] + Split(rest)
  {
    var path := part + [SEP] + rest;
    assert path[..|part|] == part;
    PartLengthIs(path, |part|);
    assert path[|part| + 1..] == rest;
  }

  lemma {:induction false} PartLengthIs(path: string, n: nat)
    requires n < |path| && path[n] == SEP && SEP !in path[..n]
    ensures PartLength(path) == n
  {
    if n > 0 {
      assert path[0] in path[..n];
      assert forall c :: c in path[1..][..n - 1] ==> c in path[..n];
      PartLengthIs(path[1..], n - 1);
    }
  }

  lemma {:induction false} ResolvePlain(dirs: seq<string>, more: seq<string>, last: string)
    requires AllPlain(more) && Plain(last)
    ensures Resolve(dirs, more + [last]) == Render(dirs + more) + last
    decreases |more|
  {
    if more == [] {
      assert more + [last] == [last] && dirs + more == dirs;
    } else {
      assert (more + [last])[1..] == more[1..] + [last];
      ResolvePlain(dirs + [more[0]], more[1..], last);
      assert dirs + [more[0]] + more[1..] == dirs + more;
    }
  }

  /** A resolved absolute name has plain components behind the root and is left alone. */
  lemma RenderedFacts(dirs: seq<string>, last: string)
    requires AllPlain(dirs) && Plain(last)
    ensures var name := Render(dirs) + last;
      && name != "" && name[0] == SEP && Split(name) == [""] + dirs + [last]
      && (forall k :: 0 <= k < |Split(name)| ==> Plain(Split(name)[k]))
      && Scan("", name) == name
  {
    hide Scan, Split, Render;
    var name := Render(dirs) + last;
    RenderEnds(dirs);
    SplitRendered(dirs, last);
    SplitPlain(last);
    assert [""] + dirs + [last] == [""] + (dirs + [last]);
    PlainRest(name, dirs + [last]);
    FromRoot(name);
    ScanResolves([], name[1..]);
    ResolvePlain([], dirs, last);
    assert [] + dirs == dirs;
  }

  lemma PlainRest(name: string, parts: seq<string>)
    requires name != "" && name[0] == SEP && Split(name) == [""] + parts
    ensures Split(name[1..]) == parts
  {
    hide Split;
    SplitAt("", name[1..]);
    assert name == "" + [SEP] + name[1..];
    assert Split(name)[1..] == parts;
  }

  lemma SplitPlain(part: string)
    requires SEP !in part
    ensures Split(part) == [part]
  {
    NoSlashLength(part);
  }

  lemma {:induction false} NoSlashLength(part: string)
    requires SEP !in part
    ensures PartLength(part) == |part|
  {
    if part != "" {
      assert part[0] in part;
      NoSlashLength(part[1..]);
    }
  }

  /** Behind the leading separator the scan resolves from the root. */
  lemma FromRoot(path: string)
    requires path != "" && path[0] == SEP
    ensures Scan("", path) == Scan(Render([]), path[1..])
  {
    hide Parent;
    ScanByPart("", path);
    SplitAt("", path[1..]);
    assert path == "" + [SEP] + path[1..];
    assert "" + ("" + [SEP]) == Render([]);
    assert PartLength(path) == 0;
  }

  /** The scan of an absolute path is its component-stack resolution; the result starts at the
      root, has no part that is a dot or two dots, is no longer than the path, and is left
      alone by a second scan. */
  lemma AbsoluteIsResolved(path: string)
    requires path != "" && path[0] == SEP
    ensures var name := AbsoluteName("", path);
      && name == Resolve([], Split(path)[1..])
      && name != "" && name[0] == SEP && |name| <= |path|
      && (forall k :: 0 <= k < |Split(name)| ==> Plain(Split(name)[k]))
      && AbsoluteName("", name) == name
  {
    hide Scan, Resolve, Render;
    FromRoot(path);
    SplitAt("", path[1..]);
    assert path == "" + [SEP] + path[1..];
    assert Split(path)[1..] == Split(path[1..]);
    ScanResolves([], path[1..]);
    SplitAllSlashless(path[1..]);
    var before, last := ResolvedForm([], Split(path[1..]));
    RenderedFacts(before, last);
    NoLonger("", path);
  }

  lemma {:induction false} NoLonger(out: string, rest: string)
    ensures |Scan(out, rest)| <= |out| + |rest|
    decreases |rest|
  {
    hide Scan, Split, Parent;
    ScanByPart(out, rest);
    SplitFirst(rest);
    var part := Split(rest)[0];
    ParentSize(out);
    if |Split(rest)| > 1 {
      var next := if part == "." then out else if part == ".." then Parent(out) else out + (part + [SEP]);
      NoLonger(next, rest[PartLength(rest) + 1..]);
    }
  }

  lemma ParentSize(out: string)
    ensures |Parent(out)| <= |out| + 1
  {
  }

  /** Resolving plain directories first is entering them. */
  lemma {:induction false} ResolveBehind(dirs: seq<string>, more: seq<string>, parts: seq<string>)
    requires AllPlain(more) && |parts| >= 1
    ensures Resolve(dirs, more + parts) == Resolve(dirs + more, parts)
    decreases |more|
  {
    hide Finish;
    if more == [] {
      assert more + parts == parts && dirs + more == dirs;
    } else {
      assert (more + parts)[1..] == more[1..] + parts && (more + parts)[0] == more[0];
      ResolveBehind(dirs + [more[0]], more[1..], parts);
      assert dirs + [more[0]] + more[1..] == dirs + more;
    }
  }

  /** The working directory, with or without a separator at its end. */
  ghost predicate IsDirectory(cwd: string, dirs: seq<string>) {
    AllPlain(dirs) && cwd != "" && (cwd == Render(dirs) || (cwd[|cwd| - 1] != SEP && cwd + [SEP] == Render(dirs)))
  }

  lemma CwdSlash(cwd: string, dirs: seq<string>)
    requires IsDirectory(cwd, dirs)
    ensures WithSlash(cwd) == Render(dirs)
  {
    RenderEnds(dirs);
  }

  lemma BehindDirectory(dirs: seq<string>, path: string)
    requires AllPlain(dirs)
    ensures Scan(Render(dirs), path) == AbsoluteName("", Render(dirs) + path)
  {
    hide Scan, Split, Render, Resolve;
    var name := Render(dirs) + path;
    RenderEnds(dirs);
    FromRoot(name);
    SplitRendered(dirs, path);
    assert [""] + dirs + Split(path) == [""] + (dirs + Split(path));
    PlainRest(name, dirs + Split(path));
    ScanResolves([], name[1..]);
    ResolveBehind([], dirs, Split(path));
    assert [] + dirs == dirs;
    ScanResolves(dirs, path);
  }

  /** A relative path is resolved from the working directory, which is clean: as if it followed it. */
  lemma RelativeIsInCwd(cwd: string, dirs: seq<string>, path: string)
    requires IsDirectory(cwd, dirs) && !(path != "" && path[0] == SEP)
    ensures AbsoluteName(cwd, path) == AbsoluteName("", Render(dirs) + path) == Resolve(dirs, Split(path))
  {
    hide Scan, Split, Render, Resolve, WithSlash;
    CwdSlash(cwd, dirs);
    BehindDirectory(dirs, path);
    ScanResolves(dirs, path);
  }
}
