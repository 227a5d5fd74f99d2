/** The file name made absolute in its own buffer. */
module FilePathEngine {
  import opened CString
  import opened FilePath
  import opened FilePathRoom

  /** Position of the last separator among the first `n` characters, or -1. */
  method FindLastSlash(buffer: array<char>, n: nat) returns (k: int)
    requires n <= buffer.Length
    ensures k == LastSlash(buffer[..n])
  {
    k := n - 1;
    assert buffer[..n][..n] == buffer[..n];
    while k >= 0 && buffer[k] != SEP
      invariant -1 <= k < n
      invariant LastSlash(buffer[..n]) == LastSlash(buffer[..n][..k + 1])
    {
      assert buffer[..n][..k + 1][..k] == buffer[..n][..k];
      k := k - 1;
    }
  }

  /** Replaces a directory by its parent. */
  method GoUp(temp: array<char>, outpos: nat, ghost out: string) returns (newpos: nat)
    requires 0 < outpos < temp.Length && temp[..outpos] == out
    modifies temp
    ensures newpos <= outpos && temp[..newpos] == Parent(out)
  {
    temp[outpos - 1] := NUL;
    var k := FindLastSlash(temp, outpos - 1);
    assert temp[..outpos - 1] == out[..outpos - 1];
    if k >= 0 {
      temp[k + 1] := NUL;
      newpos := k + 1;
    } else {
      temp[0] := SEP;
      newpos := 1;
    }
  }

  /** Copies the next part with its separator, as far as there is room. */
  method CopyPart(name: array<char>, inpos: nat, ghost path: string, temp: array<char>, outpos: nat, ghost out: string)
      returns (nextin: nat, nextout: nat)
    requires name != temp && inpos < |path| && IsString(name[..], 0, path)
    requires outpos < temp.Length == FILENAME_MAX && temp[..outpos] == out
    modifies temp
    ensures var rest := path[inpos..];
      var n := PartLength(rest);
      var length := if n == |rest| then n else n + 1;
      && nextout == (if outpos + length < FILENAME_MAX then outpos + length else FILENAME_MAX)
      && nextin == inpos + nextout - outpos && temp[..nextout] == out + rest[..nextout - outpos]
  {
    nextin, nextout := inpos, outpos;
    ghost var rest := path[inpos..];
    ghost var n := PartLength(rest);
    assert name[..][0..|path|] == path;
    while name[nextin] != NUL && nextout < FILENAME_MAX
      invariant inpos <= nextin <= inpos + n && nextout == outpos + nextin - inpos <= FILENAME_MAX
      invariant temp[..nextout] == out + rest[..nextin - inpos]
      decreases |path| - nextin
    {
      assert name[nextin] == path[nextin] == rest[nextin - inpos];
      assert nextin - inpos < n ==> rest[nextin - inpos] in rest[..n];
      temp[nextout] := name[nextin];
      nextout := nextout + 1;
      nextin := nextin + 1;
      assert rest[..nextin - inpos] == rest[..nextin - inpos - 1] + [rest[nextin - inpos - 1]];
      if name[nextin - 1] == SEP {
        break;
      }
    }
    if nextout < FILENAME_MAX && nextin < |path| {
      AtTheEnd(name[..], path, nextin);
    }
  }

  /** What the characters at `inpos` say about the rest of the path. */
  lemma ReadsRest(name: seq<char>, path: string, inpos: nat)
    requires IsString(name, 0, path) && inpos < |path|
    ensures var rest := path[inpos..];
      && name[inpos] == rest[0] != NUL
      && (name[inpos + 1] == SEP <==> |rest| > 1 && rest[1] == SEP)
      && (name[inpos + 1] == '.' <==> |rest| > 1 && rest[1] == '.')
      && (name[inpos + 1] == NUL <==> |rest| == 1)
      && (|rest| > 1 ==> (name[inpos + 2] == SEP <==> |rest| > 2 && rest[2] == SEP))
      && (|rest| > 1 ==> (name[inpos + 2] == NUL <==> |rest| == 2))
      && (|rest| > 1 ==> rest[2..] == path[inpos + 2..]) && (|rest| > 2 ==> rest[3..] == path[inpos + 3..])
  {
    assert forall k :: 0 <= k < |path| ==> name[k] == name[0..|path|][k];
    assert forall k :: 0 <= k < |path| ==> path[k] in path;
  }

  /** What is written so far; at the end of the path a separator may have been removed from it. */
  ghost predicate Goes(path: string, inpos: nat, out: string, temp: seq<char>, outpos: nat) {
    && inpos <= |path| && outpos < |temp|
    && (temp[..outpos] == out ||
        (inpos == |path| && outpos >= 1 && temp[..outpos - 1] == out && temp[outpos - 1] == NUL))
  }

  /** Removes the separator at the end, though not the root, when the path is at its end. */
  method DropSlash(temp: array<char>, outpos: nat, ghost path: string, ghost out: string)
    requires Goes(path, |path|, out, temp[..], outpos) && temp[..outpos] == out && out != ""
    modifies temp
    ensures Goes(path, |path|, NoSlashAtEnd(out), temp[..], outpos)
  {
    if outpos > 1 {
      temp[outpos - 1] := NUL;
      assert temp[..outpos - 1] == out[..outpos - 1];
    }
  }

  /** Two dots: up one directory, and behind the separator if there is one. */
  method EnterParent(name: array<char>, inpos: nat, ghost path: string, temp: array<char>, outpos: nat,
      ghost out: string)
      returns (nextin: nat, nextout: nat, ghost next: string)
    requires name != temp && IsString(name[..], 0, path) && 0 < outpos < temp.Length && temp[..outpos] == out
    requires inpos + 2 <= |path| && (name[inpos + 2] == SEP || name[inpos + 2] == NUL)
    requires inpos + 2 < |path| ==> name[inpos + 2] == path[inpos + 2] != NUL
    modifies temp
    ensures nextout <= outpos && inpos < nextin && Goes(path, nextin, next, temp[..], nextout)
    ensures if inpos + 2 < |path| then nextin == inpos + 3 && next == Parent(out)
            else nextin == |path| && next == NoSlashAtEnd(Parent(out))
  {
    hide Parent;
    nextout := GoUp(temp, outpos, out);
    next := Parent(out);
    nextin := inpos + 2;
    if name[nextin] == SEP {
      nextin := nextin + 1;
    } else {
      DropSlash(temp, nextout, path, next);
      next := NoSlashAtEnd(next);
    }
  }

  /** A part that is not dots: it is copied, as far as there is room. */
  method EnterPart(name: array<char>, inpos: nat, ghost path: string, temp: array<char>, outpos: nat, ghost out: string)
      returns (nextin: nat, nextout: nat, ghost next: string)
    requires name != temp && IsString(name[..], 0, path) && temp.Length == FILENAME_MAX && inpos < |path|
    requires outpos < FILENAME_MAX && temp[..outpos] == out && Copied(path[inpos..])
    requires out == "" ==> path[inpos] == SEP
    modifies temp
    ensures inpos < nextin <= |path| && nextout <= FILENAME_MAX
    ensures nextout == FILENAME_MAX ==> !HasRoom(out, path[inpos..])
    ensures nextout < FILENAME_MAX ==>
      && Goes(path, nextin, next, temp[..], nextout) && next != ""
      && Scan(next, path[nextin..]) == Scan(out, path[inpos..])
      && (HasRoom(next, path[nextin..]) <==> HasRoom(out, path[inpos..]))
  {
    hide PartLength, Scan, HasRoom;
    ghost var rest := path[inpos..];
    nextin, nextout := CopyPart(name, inpos, path, temp, outpos, out);
    ghost var n := PartLength(rest);
    next := out + rest[..nextin - inpos];
    PartIsThere(rest);
    assert rest[nextin - inpos..] == path[nextin..];
    CopyNeedsRoom(out, rest);
    CopyScans(out, rest);
    if n == |rest| {
      assert rest[..n] == rest;
      NothingLeft(next, path);
    }
  }

  /** One part of the path: the scan goes on behind it, unless the room is used up. */
  method NextPart(name: array<char>, inpos: nat, ghost path: string, temp: array<char>, outpos: nat, ghost out: string)
      returns (nextin: nat, nextout: nat, ghost next: string)
    requires name != temp && IsString(name[..], 0, path) && temp.Length == FILENAME_MAX
    requires inpos < |path| && Goes(path, inpos, out, temp[..], outpos)
    requires out == "" ==> path[inpos] == SEP
    modifies temp
    ensures inpos < nextin <= |path| && nextout <= FILENAME_MAX
    ensures nextout == FILENAME_MAX ==> !HasRoom(out, path[inpos..])
    ensures nextout < FILENAME_MAX ==>
      && Goes(path, nextin, next, temp[..], nextout) && next != ""
      && Scan(next, path[nextin..]) == Scan(out, path[inpos..])
      && (HasRoom(next, path[nextin..]) <==> HasRoom(out, path[inpos..]))
  {
    hide Parent, Scan, HasRoom;
    ghost var rest := path[inpos..];
    ReadsRest(name[..], path, inpos);
    if rest[0] == '.' {
      Dots(out, rest);
    }
    if name[inpos] == '.' && name[inpos + 1] == SEP {
      nextin, nextout, next := inpos + 2, outpos, out;
    } else if name[inpos] == '.' && name[inpos + 1] == NUL {
      nextin, nextout, next := inpos + 1, outpos, NoSlashAtEnd(out);
      DropSlash(temp, outpos, path, out);
      NothingLeft(next, path);
    } else if name[inpos] == '.' && name[inpos + 1] == '.' && (name[inpos + 2] == SEP || name[inpos + 2] == NUL) {
      nextin, nextout, next := EnterParent(name, inpos, path, temp, outpos, out);
      NothingLeft(next, path);
    } else {
      nextin, nextout, next := EnterPart(name, inpos, path, temp, outpos, out);
    }
  }

  /** A part that is neither one dot nor two. */
  predicate Copied(rest: string) {
    && rest != "" && rest != "." && rest != ".."
    && !(rest[0] == '.' && |rest| > 1 && rest[1] == SEP)
    && !(rest[0] == '.' && |rest| > 2 && rest[1] == '.' && rest[2] == SEP)
  }

  /** What dots do. */
  lemma Dots(out: string, rest: string)
    requires |out| < FILENAME_MAX && rest != "" && rest[0] == '.'
    ensures |rest| > 1 && rest[1] == SEP ==>
      Scan(out, rest) == Scan(out, rest[2..]) && (HasRoom(out, rest) <==> HasRoom(out, rest[2..]))
    ensures rest == "." ==> Scan(out, rest) == NoSlashAtEnd(out) && HasRoom(out, rest)
    ensures |rest| > 2 && rest[1] == '.' && rest[2] == SEP ==>
      && Scan(out, rest) == Scan(Parent(out), rest[3..])
      && (HasRoom(out, rest) <==> HasRoom(Parent(out), rest[3..]))
    ensures rest == ".." ==> Scan(out, rest) == NoSlashAtEnd(Parent(out)) && HasRoom(out, rest)
  {
    hide Parent;
  }

  lemma RoomBehind(out: string, rest: string)
    ensures HasRoom(out, rest) ==> |out| < FILENAME_MAX
  {
  }

  lemma CopiedPart(rest: string)
    requires Copied(rest)
    ensures var part := rest[..PartLength(rest)]; part != "." && part != ".."
  {
    hide Split;
    SplitFirst(rest);
    DotParts(rest);
  }

  /** What is written with a part that is copied. */
  lemma CopiedNext(out: string, rest: string)
    requires Copied(rest) && PartLength(rest) < |rest|
    ensures Next(out, rest[..PartLength(rest)]) == out + rest[..PartLength(rest) + 1]
  {
    CopiedPart(rest);
    var n := PartLength(rest);
    assert rest[..n + 1] == rest[..n] + [SEP];
  }

  lemma CopyScans(out: string, rest: string)
    requires Copied(rest)
    ensures Scan(out, rest) ==
      var n := PartLength(rest);
      if n == |rest| then out + rest else Scan(out + rest[..n + 1], rest[n + 1..])
  {
    hide PartLength, Parent;
  }

  /** The room for a part that is copied. */
  lemma CopyNeedsRoom(out: string, rest: string)
    requires Copied(rest)
    ensures var n := PartLength(rest);
      var length := if n == |rest| then n else n + 1;
      && (HasRoom(out, rest) ==> |out| + length < FILENAME_MAX)
      && (n < |rest| && |out| < FILENAME_MAX ==>
            (HasRoom(out, rest) <==> HasRoom(out + rest[..n + 1], rest[n + 1..])))
      && (n == |rest| && |out| + length < FILENAME_MAX ==> HasRoom(out, rest))
  {
    hide HasRoom, Parent, PartLength, Next;
    RoomByPart(out, rest);
    CopiedPart(rest);
    RoomBehind(out, rest);
    var n := PartLength(rest);
    PartIsThere(rest);
    if n < |rest| {
      CopiedNext(out, rest);
      RoomBehind(out + rest[..n + 1], rest[n + 1..]);
    } else {
      assert rest[..n] == rest;
    }
  }

  lemma NothingLeft(out: string, path: string)
    ensures path[|path|..] == "" && Scan(out, "") == out && (HasRoom(out, "") <==> |out| < FILENAME_MAX)
  {
  }

  lemma PartIsThere(rest: string)
    ensures PartLength(rest) <= |rest| && (rest != "" && rest[0] != SEP ==> PartLength(rest) > 0)
  {
  }

  /** What the scan of a path starts with. */
  function Before(cwd: string, path: string): string {
    if path != "" && path[0] == SEP then "" else WithSlash(cwd)
  }

  /** Each leading part of the path has an absolute name of less than FILENAME_MAX characters. */
  ghost predicate Fits(cwd: string, path: string) {
    PrefixesFit(Before(cwd, path), path)
  }

  /** A name that is short before it is cleaned fits. */
  lemma ShortNamesFit(cwd: string, path: string)
    requires |Before(cwd, path)| + |path| < FILENAME_MAX
    ensures Fits(cwd, path)
  {
    hide Scan;
    forall m | 0 <= m <= |path| ensures PrefixFits(Before(cwd, path), path, m) {
      NoLonger(Before(cwd, path), path[..m]);
    }
  }

  /** Scans the name into `temp`.  Its position reaches the end of the buffer, behind which the
      source then writes a NUL, if and only if the name does not fit. */
  method ScanInto(name: array<char>, cwd: string, ghost path: string, temp: array<char>)
      returns (outpos: nat, ghost out: string)
    requires IsString(name[..], 0, path) && name != temp && temp.Length == FILENAME_MAX
    requires 0 < |cwd| < FILENAME_MAX
    modifies temp
    ensures outpos <= FILENAME_MAX && (outpos < FILENAME_MAX <==> Fits(cwd, path))
    ensures Fits(cwd, path) ==> out == AbsoluteName(cwd, path) && Goes(path, |path|, out, temp[..], outpos)
  {
    hide Scan, HasRoom, PrefixesFit;
    var inpos: nat := 0;
    outpos, out := 0, "";
    assert path[0..] == path && name[..][0..|path|] == path;
    if name[0] != SEP {
      outpos := PutDirectory(temp, cwd);
      out := WithSlash(cwd);
    }
    RoomIsPrefixes(out, path);
    RoomBehind(out, path);
    while name[inpos] != NUL && outpos < FILENAME_MAX
      invariant IsString(name[..], 0, path) && inpos <= |path| && outpos <= FILENAME_MAX
      invariant outpos == FILENAME_MAX ==> !Fits(cwd, path)
      invariant outpos < FILENAME_MAX ==>
        && Goes(path, inpos, out, temp[..], outpos)
        && (out == "" ==> inpos == 0 && (path == "" || path[0] == SEP))
        && Scan(out, path[inpos..]) == AbsoluteName(cwd, path)
        && (HasRoom(out, path[inpos..]) <==> Fits(cwd, path))
      decreases |path| - inpos
    {
      AtTheEnd(name[..], path, inpos);
      inpos, outpos, out := NextPart(name, inpos, path, temp, outpos, out);
    }
    AtTheEnd(name[..], path, inpos);
    NothingLeft(out, path);
  }

  /** Makes the name absolute and clean. */
  method MakeAbsoluteName(name: array<char>, cwd: string, ghost path: string)
    requires IsString(name[..], 0, path) && FILENAME_MAX <= name.Length
    requires 0 < |cwd| < FILENAME_MAX && NUL !in cwd && Fits(cwd, path)
    modifies name
    ensures IsString(name[..], 0, AbsoluteName(cwd, path))
  {
    hide Scan, PrefixesFit;
    var temp := new char[FILENAME_MAX](_ => NUL);
    var outpos, out := ScanInto(name, cwd, path, temp);
    NoNulInScan(cwd, path);
    temp[outpos] := NUL;
    ghost var text := temp[..];
    assert IsString(text, 0, out);
    forall k | 0 <= k < FILENAME_MAX {
      name[k] := temp[k];
    }
    assert name[..][0..|out|] == text[0..|out|];
  }

  /** The working directory with a separator at the end. */
  method PutDirectory(temp: array<char>, cwd: string) returns (length: nat)
    requires cwd != "" && |cwd| + 1 <= temp.Length
    modifies temp
    ensures length == |WithSlash(cwd)| <= temp.Length && temp[..length] == WithSlash(cwd)
  {
    forall k | 0 <= k < |cwd| {
      temp[k] := cwd[k];
    }
    length := |cwd|;
    assert temp[..length] == cwd;
    if temp[length - 1] != SEP {
      temp[length] := SEP;
      length := length + 1;
    }
  }

  lemma AtTheEnd(name: seq<char>, path: string, inpos: nat)
    requires IsString(name, 0, path) && inpos <= |path|
    ensures name[inpos] == NUL <==> inpos == |path|
  {
    if inpos < |path| {
      assert name[0..|path|][inpos] == name[inpos] && path[inpos] in path;
    }
  }

  /** Scanning brings no NUL into a name. */
  lemma NoNulInScan(cwd: string, path: string)
    requires NUL !in cwd && NUL !in path
    ensures NUL !in AbsoluteName(cwd, path)
  {
    hide Scan;
    ScanKeepsOut("", path);
    ScanKeepsOut(WithSlash(cwd), path);
  }

  lemma {:induction false} ScanKeepsOut(out: string, rest: string)
    requires NUL !in out && NUL !in rest
    ensures NUL !in Scan(out, rest)
    decreases |rest|
  {
    hide Split, Parent, Scan;
    ScanByPart(out, rest);
    SplitFirst(rest);
    ParentHasNoNul(out);
    var part, n := Split(rest)[0], PartLength(rest);
    assert NUL !in part && NUL !in out + (part + [SEP]);
    if |Split(rest)| > 1 {
      assert NUL !in rest[n + 1..];
      ScanKeepsOut(if part == "." then out else if part == ".." then Parent(out)
          else out + (part + [SEP]), rest[n + 1..]);
    }
  }

  lemma ParentHasNoNul(out: string)
    requires NUL !in out
    ensures NUL !in Parent(out)
  {
  }
}
