/** The room that the scan of a path needs. */
module FilePathRoom {
  import opened FilePath

  const FILENAME_MAX := 4096

  /** What is written stays shorter than FILENAME_MAX characters all through the scan. */
  predicate HasRoom(out: string, rest: string)
    decreases |rest|
  {
    && |out| < FILENAME_MAX
    && if rest == "" || rest == "." || rest == ".." then true
       else if rest[0] == '.' && |rest| > 1 && rest[1] == SEP then HasRoom(out, rest[2..])
       else if rest[0] == '.' && |rest| > 2 && rest[1] == '.' && rest[2] == SEP then HasRoom(Parent(out), rest[3..])
       else
         var n := PartLength(rest);
         if n == |rest| then |out + rest| < FILENAME_MAX else HasRoom(out + rest[..n + 1], rest[n + 1..])
  }

  /** What a part with a separator behind it makes of the output. */
  function Next(out: string, part: string): string {
    if part == "." then out else if part == ".." then Parent(out) else out + (part + [SEP])
  }

  lemma RoomByPart(out: string, rest: string)
    ensures var n := PartLength(rest);
      HasRoom(out, rest) <==>
      |out| < FILENAME_MAX &&
      if n < |rest| then HasRoom(Next(out, rest[..n]), rest[n + 1..])
      else (rest == "." || rest == "..") || |out + rest| < FILENAME_MAX
  {
    hide Split, Parent;
    SplitFirst(rest);
    DotParts(rest);
    var n := PartLength(rest);
    if n < |rest| {
      assert rest[..n + 1] == rest[..n] + [SEP];
    } else {
      assert rest[..n] == rest;
    }
  }

  /** The scan of the first `m` characters of a path, up to the end of its first part. */
  lemma PrefixInPart(out: string, rest: string, m: nat)
    requires m <= PartLength(rest) && |out| < FILENAME_MAX
    ensures var n := PartLength(rest);
      (rest[..n] == "." || rest[..n] == "..") || |out| + n < FILENAME_MAX ==> |Scan(out, rest[..m])| < FILENAME_MAX
  {
    hide Scan, Parent;
    var n := PartLength(rest);
    assert rest[..n][..m] == rest[..m] && forall c :: c in rest[..n][..m] ==> c in rest[..n];
    SplitPlain(rest[..m]);
    ScanByPart(out, rest[..m]);
    assert |Parent(out)| <= |out| || |Parent(out)| == 1 by { ParentIsShort(out); }
    if m == 2 && rest[..n] == ".." {
      assert rest[..m] == "..";
    } else if (rest[..n] == "." || rest[..n] == "..") && m == 1 {
      assert rest[..m] == [rest[..n][0]] == ".";
    }
  }

  lemma ParentIsShort(out: string)
    ensures |Parent(out)| <= |out| || |Parent(out)| == 1
  {
  }

  /** The scan of more characters goes on behind the first part. */
  lemma PrefixBehindPart(out: string, rest: string, m: nat)
    requires PartLength(rest) < m <= |rest|
    ensures var n := PartLength(rest);
      Scan(out, rest[..m]) == Scan(Next(out, rest[..n]), rest[n + 1..][..m - n - 1])
  {
    hide Scan, Parent, Split;
    var n := PartLength(rest);
    assert rest[..m][..n] == rest[..n];
    PartLengthIs(rest[..m], n);
    ScanByPart(out, rest[..m]);
    SplitFirst(rest[..m]);
    assert rest[..m][n + 1..] == rest[n + 1..][..m - n - 1];
  }

  ghost predicate PrefixesFit(out: string, rest: string) {
    forall m :: 0 <= m <= |rest| ==> PrefixFits(out, rest, m)
  }

  predicate PrefixFits(out: string, rest: string, m: nat)
    requires m <= |rest|
  {
    |Scan(out, rest[..m])| < FILENAME_MAX
  }

  /** The scan has room if and only if the scan of each prefix of the path has a short result. */
  lemma {:induction false} RoomIsPrefixes(out: string, rest: string)
    ensures HasRoom(out, rest) <==> PrefixesFit(out, rest)
    decreases |rest|
  {
    hide Scan, Parent, HasRoom;
    var n := PartLength(rest);
    RoomByPart(out, rest);
    EmptyPrefix(out, rest);
    if n < |rest| {
      var next, more := Next(out, rest[..n]), rest[n + 1..];
      RoomIsPrefixes(next, more);
      forall m | 0 <= m <= |more| ensures PrefixFits(out, rest, n + 1 + m) <==> PrefixFits(next, more, m) {
        PrefixBehindPart(out, rest, n + 1 + m);
      }
      if PrefixesFit(next, more) && |out| < FILENAME_MAX {
        EmptyPrefix(next, more);
        forall m | 0 <= m <= |rest| ensures PrefixFits(out, rest, m) {
          if m <= n {
            PrefixInPart(out, rest, m);
          } else {
            assert PrefixFits(next, more, m - n - 1);
          }
        }
      }
    } else {
      if rest != "." && rest != ".." {
        WholePart(out, rest);
      }
      if |out| < FILENAME_MAX {
        forall m | 0 <= m <= n
          ensures (rest == "." || rest == "..") || |out + rest| < FILENAME_MAX ==> PrefixFits(out, rest, m)
        {
          PrefixInPart(out, rest, m);
        }
      }
    }
  }

  lemma EmptyPrefix(out: string, rest: string)
    ensures PrefixFits(out, rest, 0) <==> |out| < FILENAME_MAX
  {
    assert rest[..0] == "";
  }

  lemma WholePart(out: string, rest: string)
    requires PartLength(rest) == |rest| && rest != "." && rest != ".."
    ensures PrefixFits(out, rest, |rest|) <==> |out + rest| < FILENAME_MAX
  {
    hide Scan, Parent;
    assert rest[..|rest|] == rest;
    SplitPlain(rest);
    ScanByPart(out, rest);
  }
}
