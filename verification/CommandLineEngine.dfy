/** The two passes over the buffer of a command line, and the batching of options before it. */
module CommandLineEngine {
  import opened CString
  import opened CommandLine

  /** An entry of argv: the program name, a place in the buffer, or the null pointer. */
  datatype Arg = Program | At(offset: nat) | Null

  /** Where argument `k` starts in the buffer. */
  function PlaceOf(argv: seq<Arg>, k: nat): int {
    if k + 1 < |argv| && argv[k + 1].At? then argv[k + 1].offset else -1
  }

  /** The part of the buffer before position `i` holds the arguments scanned so far, each closed
      one followed by NUL and before `limit`, where the open one starts; `rest` is still to come. */
  ghost predicate Parsed(buffer: seq<char>, argv: seq<Arg>, scan: Scan, limit: nat, i: nat, rest: string) {
    && i + |rest| < |buffer| && buffer[i..i + |rest|] == rest && buffer[i + |rest|] == NUL
    && |scan.args| < |argv|
    && (forall k :: 0 <= k < |ClosedArgs(scan)| ==> ClosedAt(buffer, PlaceOf(argv, k), scan.args[k], limit))
    && (if scan.inArg then
          scan.args != [] && PlaceOf(argv, |scan.args| - 1) == limit && limit + |OpenArg(scan)| == i &&
              buffer[limit..i] == OpenArg(scan)
        else limit == i && (i > 0 ==> buffer[i - 1] == NUL))
  }

  ghost predicate ClosedAt(buffer: seq<char>, offset: int, arg: string, limit: nat) {
    0 <= offset && offset + |arg| < limit <= |buffer| && buffer[offset..offset + |arg|] == arg &&
        buffer[offset + |arg|] == NUL
  }

  lemma ClosedStays(before: seq<char>, buffer: seq<char>, offset: int, arg: string, limit: nat, further: nat)
    requires ClosedAt(before, offset, arg, limit)
    requires limit <= further <= |buffer| && before[..limit] == buffer[..limit]
    ensures ClosedAt(buffer, offset, arg, further)
  {
    assert forall k :: 0 <= k < limit ==> buffer[k] == before[..limit][k];
  }

  /** A separator is overwritten. */
  lemma SeparatorStep(buffer: seq<char>, argv: seq<Arg>, scan: Scan, limit: nat, i: nat, rest: string)
    requires Parsed(buffer, argv, scan, limit, i, rest) && rest != "" && IsSpace(rest[0]) && !scan.escaped
    ensures Parsed(buffer[i := NUL], argv, Next(scan, rest[0]), i + 1, i + 1, rest[1..])
  {
    hide IsSpace;
    var after, next := buffer[i := NUL], Next(scan, rest[0]);
    forall k | 0 <= k < |next.args| ensures ClosedAt(after, PlaceOf(argv, k), next.args[k], i + 1) {
      if k < |ClosedArgs(scan)| {
        ClosedStays(buffer, after, PlaceOf(argv, k), scan.args[k], limit, i + 1);
      } else {
        assert after[limit..i] == buffer[limit..i];
      }
    }
    RestMoves(buffer, after, i, i + 1, rest);
  }

  lemma RestMoves(before: seq<char>, buffer: seq<char>, i: nat, j: nat, rest: string)
    requires i + |rest| < |before| && before[i..i + |rest|] == rest && before[i + |rest|] == NUL && rest != ""
    requires i <= j <= i + 1 && j + |rest| - 1 < |buffer|
    requires forall k :: j <= k < j + |rest| ==> buffer[k] == before[k - j + i + 1]
    ensures buffer[j..j + |rest| - 1] == rest[1..] && buffer[j + |rest| - 1] == NUL
  {
    assert forall k :: 0 <= k < |rest| ==> rest[k] == before[i + k];
  }

  lemma NextGoesOn(scan: Scan, c: char)
    requires !IsSpace(c) && scan.inArg && scan.args != []
    ensures var next := Next(scan, c);
      && next.inArg && |next.args| == |scan.args| && ClosedArgs(next) == ClosedArgs(scan)
      && OpenArg(next) == OpenArg(scan) + [c]
      && forall k :: 0 <= k < |scan.args| - 1 ==> next.args[k] == scan.args[k]
  {
    hide IsSpace;
  }

  lemma ClosedAreFirst(scan: Scan)
    requires scan.inArg && scan.args != []
    ensures |ClosedArgs(scan)| == |scan.args| - 1
  {
  }

  /** A character that belongs to an argument stays where it is. */
  lemma PlainStep(buffer: seq<char>, argv: seq<Arg>, scan: Scan, limit: nat, i: nat, rest: string)
    requires Parsed(buffer, argv, scan, limit, i, rest) && rest != "" && !IsSpace(rest[0]) && scan.inArg
    ensures Parsed(buffer, argv, Next(scan, rest[0]), limit, i + 1, rest[1..])
  {
    hide IsSpace, ClosedAt, Next, ClosedArgs, OpenArg;
    NextGoesOn(scan, rest[0]);
    ClosedAreFirst(scan);
    assert buffer[limit..i + 1] == buffer[limit..i] + [rest[0]];
    RestMoves(buffer, buffer, i, i + 1, rest);
  }

  lemma OpeningStep(buffer: seq<char>, argv: seq<Arg>, scan: Scan, limit: nat, i: nat, rest: string)
    requires Parsed(buffer, argv, scan, limit, i, rest) && rest != "" && !IsSpace(rest[0]) && !scan.inArg
    requires |scan.args| + 1 < |argv|
    ensures Parsed(buffer, argv[|scan.args| + 1 := At(i)], Next(scan, rest[0]), limit, i + 1, rest[1..])
  {
    hide IsSpace, ClosedAt;
    var after := argv[|scan.args| + 1 := At(i)];
    assert forall k :: 0 <= k < |scan.args| ==> PlaceOf(after, k) == PlaceOf(argv, k);
    assert buffer[limit..i + 1] == [rest[0]];
    RestMoves(buffer, buffer, i, i + 1, rest);
  }

  lemma NextUnquotes(scan: Scan, c: char)
    requires IsSpace(c) && scan.escaped && Consistent(scan)
    ensures var next := Next(scan, c);
      && scan.inArg && scan.args != [] && OpenArg(scan) != ""
      && next.inArg && |next.args| == |scan.args| && ClosedArgs(next) == ClosedArgs(scan)
      && OpenArg(next) == OpenArg(scan)[..|OpenArg(scan)| - 1] + [c]
      && forall k :: 0 <= k < |scan.args| - 1 ==> next.args[k] == scan.args[k]
  {
    hide IsSpace;
  }

  /** Escaped white space moves over its backslash, with everything behind it. */
  lemma EscapedStep(buffer: seq<char>, argv: seq<Arg>, scan: Scan, limit: nat, i: nat, rest: string)
    requires Parsed(buffer, argv, scan, limit, i, rest) && Consistent(scan) && rest != "" && IsSpace(rest[0]) &&
        scan.escaped
    ensures i > 0 && Parsed(buffer[..i - 1] + buffer[i..i + |rest| + 1] + buffer[i + |rest|..], argv,
        Next(scan, rest[0]), limit, i, rest[1..])
  {
    hide IsSpace, Next, ClosedArgs, OpenArg, ClosedAt, Consistent;
    NextUnquotes(scan, rest[0]);
    ClosedAreFirst(scan);
    var after, next := buffer[..i - 1] + buffer[i..i + |rest| + 1] + buffer[i + |rest|..], Next(scan, rest[0]);
    assert after[i - 1] == buffer[i] == rest[0];
    assert after[limit..i] == buffer[limit..i - 1] + [rest[0]];
    assert after[..limit] == buffer[..limit];
    forall k | 0 <= k < |ClosedArgs(scan)| ensures ClosedAt(after, PlaceOf(argv, k), next.args[k], limit) {
      ClosedStays(buffer, after, PlaceOf(argv, k), scan.args[k], limit, limit);
    }
    RestMoves(buffer, after, i, i, rest);
  }

  lemma ParsedAll(buffer: seq<char>, argv: seq<Arg>, scan: Scan, limit: nat, i: nat)
    requires Parsed(buffer, argv, scan, limit, i, "")
    requires forall k :: 0 <= k < |scan.args| ==> NUL !in scan.args[k]
    ensures forall k :: 0 <= k < |scan.args| ==> IsString(buffer, PlaceOf(argv, k), scan.args[k])
  {
  }

  /** A line in a buffer that is stripped in front, which keeps the passes inside the buffer. */
  ghost predicate Holds(buffer: seq<char>, line: string) {
    IsString(buffer, 0, line) && (line != "" ==> !IsSpace(line[0]))
  }

  lemma Prefixes(line: string, i: nat)
    requires i < |line|
    ensures line[..i + 1][..i] == line[..i] && line[..i + 1][i] == line[i]
    ensures Scanned(START, line[..i + 1]) == Next(Scanned(START, line[..i]), line[i])
  {
  }

  /** How one character changes what the passes keep track of. */
  lemma NextState(scan: Scan, c: char)
    requires Consistent(scan)
    ensures var next := Next(scan, c);
      && next.inArg == !(IsSpace(c) && !scan.escaped)
      && |next.args| == |scan.args| + (if next.inArg && !scan.inArg then 1 else 0)
  {
    hide IsSpace;
  }

  lemma {:induction false} MoreScanned(line: string, i: nat)
    requires i <= |line|
    ensures |Scanned(START, line[..i]).args| <= |Tokens(line)|
    decreases |line| - i
  {
    hide Next, Consistent;
    if i == |line| {
      assert line[..i] == line;
    } else {
      Prefixes(line, i);
      ScannedConsistent(line[..i]);
      NextState(Scanned(START, line[..i]), line[i]);
      MoreScanned(line, i + 1);
    }
  }

  /** The first pass. */
  method CountArgs(cmdline: array<char>, ghost line: string) returns (argc: nat)
    requires Holds(cmdline[..], line)
    ensures argc == |Tokens(line)|
  {
    hide Next, Consistent, IsSpace;
    var i := 0;
    var inArg := false;
    argc := 0;
    while cmdline[i] != NUL
      invariant i <= |line|
      invariant argc == |Scanned(START, line[..i]).args| && inArg == Scanned(START, line[..i]).inArg
      decreases |line| - i
    {
      assert cmdline[..][0..|line|] == line;
      Prefixes(line, i);
      ScannedConsistent(line[..i]);
      EscapedIsBackslash(line[..i]);
      NextState(Scanned(START, line[..i]), line[i]);
      if IsSpace(cmdline[i]) && cmdline[i - 1] != BACKSLASH {
        inArg := false;
      } else if !inArg {
        inArg := true;
        argc := argc + 1;
      }
      i := i + 1;
    }
    assert line[..i] == line;
  }

  /** Moves the string at `from`, with its NUL, one place to the front. */
  method MoveBack(cmdline: array<char>, from: nat, ghost rest: string)
    requires 0 < from && IsString(cmdline[..], from, rest)
    modifies cmdline
    ensures var was := old(cmdline[..]);
      cmdline[..] == was[..from - 1] + was[from..from + |rest| + 1] + was[from + |rest|..]
  {
    var n := StringLength(cmdline, from, rest);
    forall k | from <= k <= from + n {
      cmdline[k - 1] := cmdline[k];
    }
  }

  /** The character before tells whether white space is escaped. */
  lemma CharBefore(buffer: seq<char>, argv: seq<Arg>, scan: Scan, limit: nat, i: nat, rest: string)
    requires Parsed(buffer, argv, scan, limit, i, rest) && Consistent(scan) && i > 0
    ensures buffer[i - 1] == BACKSLASH <==> scan.escaped
    ensures scan.escaped ==> scan.inArg
  {
    hide ClosedAt;
  }

  lemma {:induction false} NoNul(line: string)
    requires NUL !in line
    ensures forall k :: 0 <= k < |Tokens(line)| ==> NUL !in Tokens(line)[k]
  {
    hide Next;
    if line != "" {
      var n := |line| - 1;
      NoNul(line[..n]);
      assert line[n] in line;
      assert forall k :: 0 <= k < |Tokens(line[..n])| ==> NUL !in Scanned(START, line[..n]).args[k];
      NextNoNul(Scanned(START, line[..n]), line[n]);
    }
  }

  lemma NextNoNul(scan: Scan, c: char)
    requires c != NUL && forall k :: 0 <= k < |scan.args| ==> NUL !in scan.args[k]
    ensures forall k :: 0 <= k < |Next(scan, c).args| ==> NUL !in Next(scan, c).args[k]
  {
    hide IsSpace;
    var arg := OpenArg(scan);
    assert forall d: char :: d in arg[..if arg == "" then 0 else |arg| - 1] ==> d in arg;
  }

  /** The second pass: closes and unquotes the arguments in place and lists where they start. */
  method ParseArgs(cmdline: array<char>, argv: array<Arg>, ghost line: string)
    requires Holds(cmdline[..], line) && argv.Length == |Tokens(line)| + 2
    modifies cmdline, argv
    ensures argv[0] == Program && argv[argv.Length - 1] == Null
    ensures forall k :: 0 <= k < |Tokens(line)| ==> IsString(cmdline[..], PlaceOf(argv[..], k), Tokens(line)[k])
  {
    hide Next, Consistent, IsSpace, Parsed, Scanned, PlaceOf;
    var i := 0;
    var inArg := false;
    argv[0] := Program;
    var argc := 1;
    ghost var r, limit := 0, 0;
    ghost var scan := START;
    StartsParsed(cmdline[..], argv[..], line);
    while cmdline[i] != NUL
      invariant r <= |line| && i < cmdline.Length && (i == 0 ==> r == 0)
      invariant scan == Scanned(START, line[..r])
      invariant Parsed(cmdline[..], argv[..], scan, limit, i, line[r..])
      invariant argc == |scan.args| + 1 && inArg == scan.inArg && argv[0] == Program
      decreases |line| - r
    {
      ghost var before, places, rest := cmdline[..], argv[..], line[r..];
      ScannedConsistent(line[..r]);
      FirstOfRest(before, places, scan, limit, i, line, r);
      NextState(scan, rest[0]);
      MoreScanned(line, r + 1);
      if i > 0 {
        CharBefore(before, places, scan, limit, i, rest);
      } else {
        StartPlain(line);
      }
      if IsSpace(cmdline[i]) && cmdline[i - 1] != BACKSLASH {
        SeparatorStep(before, places, scan, limit, i, rest);
        cmdline[i] := NUL;
        inArg := false;
        limit := i + 1;
        assert cmdline[..] == before[i := NUL];
      } else {
        if IsSpace(cmdline[i]) {
          EscapedStep(before, places, scan, limit, i, rest);
          MoveBack(cmdline, i, rest);
          i := i - 1;
        }
        if !inArg {
          OpeningStep(before, places, scan, limit, i, rest);
          argv[argc] := At(i);
          argc := argc + 1;
          inArg := true;
          assert argv[..] == places[|scan.args| + 1 := At(i)];
        } else if !IsSpace(rest[0]) {
          PlainStep(before, places, scan, limit, i, rest);
        }
      }
      i := i + 1;
      scan := Next(scan, rest[0]);
      r := r + 1;
    }
    EndOfLine(cmdline[..], argv[..], scan, limit, i, line, r);
    NoNul(line);
    ParsedAll(cmdline[..], argv[..], scan, limit, i);
    ghost var places := argv[..];
    argv[argc] := Null;
    SamePlaces(places, argv[..], |Tokens(line)|);
  }

  lemma StartsParsed(buffer: seq<char>, argv: seq<Arg>, line: string)
    requires Holds(buffer, line) && |argv| > 0
    ensures Parsed(buffer, argv, START, 0, 0, line) && Scanned(START, line[..0]) == START && line[0..] == line
  {
  }

  lemma StartPlain(line: string)
    requires line != "" && !IsSpace(line[0])
    ensures !START.escaped
  {
  }

  /** Before the NUL there is a character to scan. */
  lemma FirstOfRest(buffer: seq<char>, argv: seq<Arg>, scan: Scan, limit: nat, i: nat, line: string, r: nat)
    requires r <= |line| && Parsed(buffer, argv, scan, limit, i, line[r..]) && buffer[i] != NUL && NUL !in line
    requires scan == Scanned(START, line[..r])
    ensures r < |line| && buffer[i] == line[r] == line[r..][0] && line[r..][1..] == line[r + 1..]
    ensures IsString(buffer, i, line[r..]) && Scanned(START, line[..r + 1]) == Next(scan, line[r])
  {
    hide ClosedAt, Next;
    Prefixes(line, r);
  }

  lemma EndOfLine(buffer: seq<char>, argv: seq<Arg>, scan: Scan, limit: nat, i: nat, line: string, r: nat)
    requires r <= |line| && Parsed(buffer, argv, scan, limit, i, line[r..]) && buffer[i] == NUL && NUL !in line
    ensures r == |line| && line[r..] == "" && line[..r] == line
  {
    FirstIsRest(buffer, argv, scan, limit, i, line, r);
  }

  lemma FirstIsRest(buffer: seq<char>, argv: seq<Arg>, scan: Scan, limit: nat, i: nat, line: string, r: nat)
    requires r <= |line| && Parsed(buffer, argv, scan, limit, i, line[r..])
    ensures r < |line| ==> buffer[i] == line[r]
  {
    hide ClosedAt;
    if r < |line| {
      assert buffer[i..i + |line[r..]|][0] == line[r..][0];
    }
  }

  lemma SamePlaces(before: seq<Arg>, argv: seq<Arg>, n: nat)
    requires |argv| == |before| == n + 2 && forall k :: 0 <= k <= n ==> argv[k] == before[k]
    ensures forall k :: 0 <= k < n ==> PlaceOf(argv, k) == PlaceOf(before, k)
  {
  }

  /** Takes a line apart; without any argument there is nothing to do. */
  method ApplyCommandline(cmdline: array<char>, ghost line: string) returns (ok: bool, argv: array<Arg>)
    requires Holds(cmdline[..], line)
    modifies cmdline
    ensures ok == (Tokens(line) != []) && fresh(argv)
    ensures ok ==>
      && argv.Length == |Tokens(line)| + 2 && argv[0] == Program && argv[argv.Length - 1] == Null
      && forall k :: 0 <= k < |Tokens(line)| ==> IsString(cmdline[..], PlaceOf(argv[..], k), Tokens(line)[k])
  {
    hide Tokens, PlaceOf;
    var argc := CountArgs(cmdline, line);
    argv := new Arg[argc + 2](_ => Null);
    ok := argc > 0;
    if ok {
      ParseArgs(cmdline, argv, line);
    }
  }
}
