/** Options sent over the control socket: how the user interface quotes them into one line, and
    how the emulator takes the line apart again. */
module CommandLine {

  const BACKSLASH := '\\'

  predicate IsSpace(c: char) {
    c in {' ', '\t', '\n', '\r', '\U{0B}', '\U{0C}'}
  }

  // The user interface.

  /** Every space gets a backslash in front. */
  function Quote(path: string): string {
    if path == "" then ""
    else (if path[0] == ' ' then [BACKSLASH, ' '] else [path[0]]) + Quote(path[1..])
  }

  function Join(parts: seq<string>): string {
    if parts == [] then ""
    else if |parts| == 1 then parts[0]
    else parts[0] + " " + Join(parts[1..])
  }

  function QuoteAll(args: seq<string>): seq<string> {
    if args == [] then [] else [Quote(args[0])] + QuoteAll(args[1..])
  }

  // The emulator: what the line means, character by character.

  /** The arguments found so far, whether the last one is still open, and whether the character
      before is a backslash. */
  datatype Scan = Scan(args: seq<string>, inArg: bool, escaped: bool)

  const START := Scan([], false, false)

  function OpenArg(scan: Scan): string {
    if scan.inArg && scan.args != [] then scan.args[|scan.args| - 1] else ""
  }

  function ClosedArgs(scan: Scan): seq<string> {
    if scan.inArg && scan.args != [] then scan.args[..|scan.args| - 1] else scan.args
  }

  /** White space ends an argument; after a backslash it takes the place of the backslash. */
  function Next(scan: Scan, c: char): Scan {
    var arg := OpenArg(scan);
    if !IsSpace(c) then Scan(ClosedArgs(scan) + [arg + [c]], true, c == BACKSLASH)
    else if !scan.escaped then Scan(scan.args, false, false)
    else Scan(ClosedArgs(scan) + [(if arg == "" then "" else arg[..|arg| - 1]) + [c]], true, false)
  }

  function Scanned(scan: Scan, line: string): Scan {
    if line == "" then scan else Next(Scanned(scan, line[..|line| - 1]), line[|line| - 1])
  }

  /** The arguments of a line. */
  function Tokens(line: string): seq<string> {
    Scanned(START, line).args
  }

  lemma {:induction false} ScannedAppend(scan: Scan, a: string, b: string)
    ensures Scanned(scan, a + b) == Scanned(Scanned(scan, a), b)
  {
    hide Next;
    if b == "" {
      assert a + b == a;
    } else {
      var n := |b| - 1;
      assert (a + b)[..|a + b| - 1] == a + b[..n];
      ScannedAppend(scan, a, b[..n]);
    }
  }

  /** A backslash is remembered exactly while it is the end of the open argument. */
  ghost predicate Consistent(scan: Scan) {
    && (scan.inArg ==> scan.args != [] && OpenArg(scan) != "")
    && (scan.escaped ==> scan.inArg)
    && (scan.inArg ==> (scan.escaped <==> OpenArg(scan)[|OpenArg(scan)| - 1] == BACKSLASH))
    && (forall k :: 0 <= k < |scan.args| ==> scan.args[k] != "")
  }

  lemma NextConsistent(scan: Scan, c: char)
    requires Consistent(scan)
    ensures Consistent(Next(scan, c))
  {
    hide IsSpace;
    NotSpace();
  }

  lemma {:induction false} ScannedConsistent(line: string)
    ensures Consistent(Scanned(START, line))
  {
    hide Next, Consistent;
    if line == "" {
      StartConsistent();
    } else {
      ScannedConsistent(line[..|line| - 1]);
      NextConsistent(Scanned(START, line[..|line| - 1]), line[|line| - 1]);
    }
  }

  lemma StartConsistent()
    ensures Consistent(START)
  {
  }

  // Quoting and scanning.

  /** Only plain spaces are quoted. */
  predicate Quotable(arg: string) {
    forall k :: 0 <= k < |arg| && IsSpace(arg[k]) ==> arg[k] == ' '
  }

  /** Such an argument has no tab, newline, carriage return, vertical tab or form feed. */
  lemma QuotableMeans(arg: string)
    ensures Quotable(arg) <==>
      '\t' !in arg && '\n' !in arg && '\r' !in arg && '\U{0B}' !in arg && '\U{0C}' !in arg
  {
    if Quotable(arg) {
      forall c | c in arg && IsSpace(c) ensures c == ' ' {
        var k :| 0 <= k < |arg| && arg[k] == c;
      }
    }
  }

  predicate EndsInBackslash(arg: string) {
    arg != "" && arg[|arg| - 1] == BACKSLASH
  }

  lemma QuoteAppend(a: string, b: string)
    ensures Quote(a + b) == Quote(a) + Quote(b)
  {
    if a == "" {
      assert a + b == b;
    } else {
      assert (a + b)[1..] == a[1..] + b;
      QuoteAppend(a[1..], b);
    }
  }

  /** A quoted argument scanned where no argument is open becomes one argument. */
  lemma {:induction false} ScanQuoted(args: seq<string>, arg: string)
    requires Quotable(arg) && arg != ""
    ensures Scanned(Scan(args, false, false), Quote(arg)) == Scan(args + [arg], true, EndsInBackslash(arg))
  {
    hide Next, Scanned, IsSpace;
    var n := |arg| - 1;
    var scan := Scan(args, false, false);
    QuoteAppend(arg[..n], arg[n..]);
    assert arg == arg[..n] + arg[n..];
    ScannedAppend(scan, Quote(arg[..n]), Quote(arg[n..]));
    if n > 0 {
      ScanQuoted(args, arg[..n]);
    } else {
      ScanNothing(scan);
    }
    assert arg[n..] == [arg[n]];
    ScanLast(args, arg[..n], arg[n]);
  }

  lemma ScanNothing(scan: Scan)
    ensures Scanned(scan, Quote("")) == scan
  {
  }

  lemma ScanOne(scan: Scan, c: char)
    ensures Scanned(scan, [c]) == Next(scan, c)
  {
    assert [c][..0] == "";
    assert Scanned(scan, "") == scan;
  }

  /** A character added to the open argument, or opening one. */
  lemma NextPlain(args: seq<string>, begun: string, escaped: bool, c: char)
    requires !IsSpace(c)
    ensures Next(Scan(args + [begun], true, escaped), c) == Scan(args + [begun + [c]], true, c == BACKSLASH)
    ensures Next(Scan(args, false, escaped), c) == Scan(args + [[c]], true, c == BACKSLASH)
  {
    assert (args + [begun])[..|args|] == args;
    assert "" + [c] == [c];
  }

  lemma NextEscaped(args: seq<string>, begun: string, c: char)
    requires IsSpace(c)
    ensures Next(Scan(args + [begun + [BACKSLASH]], true, true), c) == Scan(args + [begun + [c]], true, false)
  {
    assert (args + [begun + [BACKSLASH]])[..|args|] == args;
    assert (begun + [BACKSLASH])[..|begun|] == begun;
  }

  lemma ScanLast(args: seq<string>, begun: string, c: char)
    requires IsSpace(c) ==> c == ' '
    ensures var scan := if begun == "" then Scan(args, false, false)
        else Scan(args + [begun], true, EndsInBackslash(begun));
      Scanned(scan, Quote([c])) == Scan(args + [begun + [c]], true, c == BACKSLASH)
  {
    hide Next, Scanned, IsSpace;
    var scan := if begun == "" then Scan(args, false, false) else Scan(args + [begun], true, EndsInBackslash(begun));
    assert [c][1..] == "" && "" + [c] == [c];
    if IsSpace(c) {
      assert Quote([c]) == [BACKSLASH] + [c];
      ScannedAppend(scan, [BACKSLASH], [c]);
      ScanOne(scan, BACKSLASH);
      NotSpace();
      NextPlain(args, begun, EndsInBackslash(begun), BACKSLASH);
      ScanOne(Next(scan, BACKSLASH), c);
      assert begun == "" ==> "" + [BACKSLASH] == [BACKSLASH];
      NextEscaped(args, begun, c);
    } else {
      ASpace();
      assert Quote([c]) == [c];
      ScanOne(scan, c);
      NextPlain(args, begun, EndsInBackslash(begun), c);
    }
  }

  lemma NotSpace()
    ensures !IsSpace(BACKSLASH)
  {
  }

  lemma ASpace()
    ensures IsSpace(' ')
  {
  }

  // Lines one after the other.

  function Behind(done: seq<string>, scan: Scan): Scan {
    scan.(args := done + scan.args)
  }

  lemma NextBehind(done: seq<string>, scan: Scan, c: char)
    requires Consistent(scan)
    ensures Next(Behind(done, scan), c) == Behind(done, Next(scan, c))
  {
    hide IsSpace;
    if scan.inArg {
      var n := |scan.args| - 1;
      assert (done + scan.args)[..|done| + n] == done + scan.args[..n];
    }
    var arg := OpenArg(scan);
    assert forall x: string :: done + (ClosedArgs(scan) + [x]) == done + ClosedArgs(scan) + [x];
  }

  lemma {:induction false} ScannedBehind(done: seq<string>, line: string)
    ensures Scanned(Scan(done, false, false), line) == Behind(done, Scanned(START, line))
  {
    hide Next, Consistent;
    if line == "" {
      assert done + [] == done;
    } else {
      var n := |line| - 1;
      ScannedBehind(done, line[..n]);
      ScannedConsistent(line[..n]);
      NextBehind(done, Scanned(START, line[..n]), line[n]);
    }
  }

  /** Whether a backslash is remembered shows in the line. */
  lemma EscapedIsBackslash(line: string)
    ensures Scanned(START, line).escaped == EndsInBackslash(line)
  {
    if line != "" {
      NotSpace();
    }
  }

  /** Two lists that differ at a place that both have, so also when both go on. */
  ghost predicate Differ(a: seq<string>, b: seq<string>) {
    exists j :: 0 <= j < |a| && j < |b| && a[j] != b[j]
  }

  lemma {:induction false} ConsistentOn(scan: Scan, line: string)
    requires Consistent(scan)
    ensures Consistent(Scanned(scan, line))
  {
    hide Next, Consistent;
    if line != "" {
      var n := |line| - 1;
      ConsistentOn(scan, line[..n]);
      NextConsistent(Scanned(scan, line[..n]), line[n]);
    }
  }

  /** Argument `j` begins with `p`; a backslash that may still be replaced comes after that. */
  ghost predicate BeginsWith(scan: Scan, j: nat, p: string) {
    && j < |scan.args| && p <= scan.args[j]
    && (scan.escaped && j == |scan.args| - 1 ==> |p| < |scan.args[j]|)
  }

  lemma NextBegins(scan: Scan, j: nat, p: string, c: char)
    requires Consistent(scan) && BeginsWith(scan, j, p)
    ensures BeginsWith(Next(scan, c), j, p)
  {
    hide IsSpace;
  }

  lemma {:induction false} BeginsOn(scan: Scan, j: nat, p: string, line: string)
    requires Consistent(scan) && BeginsWith(scan, j, p)
    ensures BeginsWith(Scanned(scan, line), j, p)
  {
    hide Next, Consistent, BeginsWith;
    if line != "" {
      var n := |line| - 1;
      BeginsOn(scan, j, p, line[..n]);
      ConsistentOn(scan, line[..n]);
      NextBegins(Scanned(scan, line[..n]), j, p, line[n]);
    }
  }

  /** The space after a backslash takes its place in the last argument. */
  lemma NextSwallows(scan: Scan)
    requires Consistent(scan) && scan.escaped
    ensures var last := |scan.args| - 1;
      && last >= 0 && scan.args[last] != "" && scan.args[last][|scan.args[last]| - 1] == BACKSLASH
      && var p := scan.args[last][..|scan.args[last]| - 1] + " ";
      BeginsWith(Next(scan, ' '), last, p)
  {
  }

  lemma ScannedJoined(a: string, b: string)
    ensures Scanned(START, a + " " + b) == Scanned(Next(Scanned(START, a), ' '), b)
  {
    hide Next, Scanned;
    ScannedAppend(START, a, " " + b);
    ScannedAppend(Scanned(START, a), " ", b);
    assert a + " " + b == a + (" " + b);
    ScanOne(Scanned(START, a), ' ');
  }

  /** A line that ends in a backslash swallows the space behind it. */
  lemma SpaceSwallowed(a: string, b: string, more: seq<string>)
    requires EndsInBackslash(a)
    ensures Differ(Tokens(a + " " + b), Tokens(a) + more)
  {
    hide Next, Scanned, Consistent;
    var scan := Scanned(START, a);
    ScannedConsistent(a);
    EscapedIsBackslash(a);
    ScannedJoined(a, b);
    NextSwallows(scan);
    NextConsistent(scan, ' ');
    var last := |scan.args| - 1;
    var arg := scan.args[last];
    var p := arg[..|arg| - 1] + " ";
    BeginsOn(Next(scan, ' '), last, p, b);
    assert Tokens(a + " " + b)[last][|arg| - 1] == p[|arg| - 1] == ' ';
    assert (Tokens(a) + more)[last] == arg && arg[|arg| - 1] == BACKSLASH;
  }

  /** Lines sent as one mean the arguments of each if and only if the first does not end in a
      backslash. */
  lemma TokensOfTwo(a: string, b: string)
    ensures Tokens(a + " " + b) == Tokens(a) + Tokens(b) <==> !EndsInBackslash(a)
  {
    hide Next, Scanned, EndsInBackslash;
    var scan := Scanned(START, a);
    ScannedJoined(a, b);
    EscapedIsBackslash(a);
    if EndsInBackslash(a) {
      SpaceSwallowed(a, b, Tokens(b));
    } else {
      NextSeparates(scan);
      ScannedBehind(scan.args, b);
    }
  }

  lemma NextSeparates(scan: Scan)
    requires !scan.escaped
    ensures Next(scan, ' ') == Scan(scan.args, false, false)
  {
  }

  /** The line that the user interface sends for some arguments. */
  function Line(args: seq<string>): string {
    Join(QuoteAll(args))
  }

  lemma LineOfMore(args: seq<string>)
    requires |args| > 1
    ensures Line(args) == Quote(args[0]) + " " + Line(args[1..])
  {
    assert QuoteAll(args)[1..] == QuoteAll(args[1..]);
    assert |QuoteAll(args)| > 1;
  }

  lemma LineOfOne(arg: string)
    ensures Line([arg]) == Quote(arg)
  {
    assert QuoteAll([arg][1..]) == [];
  }

  lemma {:induction false} QuoteEnds(arg: string)
    ensures EndsInBackslash(Quote(arg)) == EndsInBackslash(arg)
  {
    if arg != "" {
      QuoteEnds(arg[1..]);
    }
  }

  /** What the user interface can send: arguments that are not empty, with plain spaces only,
      none but the last ending in a backslash. */
  ghost predicate Sendable(args: seq<string>) {
    && (forall k :: 0 <= k < |args| ==> args[k] != "" && Quotable(args[k]))
    && (forall k :: 0 <= k < |args| - 1 ==> !EndsInBackslash(args[k]))
  }

  lemma {:induction false} SendableArrives(args: seq<string>)
    requires args != [] && Sendable(args)
    ensures Tokens(Line(args)) == args
  {
    hide Quotable, EndsInBackslash, Scanned, Quote, Line;
    ScanQuoted([], args[0]);
    assert [] + [args[0]] == [args[0]];
    if |args| == 1 {
      LineOfOne(args[0]);
      assert args == [args[0]];
    } else {
      LineOfMore(args);
      QuoteEnds(args[0]);
      SendableRest(args);
      SendableArrives(args[1..]);
      TokensOfTwo(Quote(args[0]), Line(args[1..]));
      assert args == [args[0]] + args[1..];
    }
  }

  lemma SendableRest(args: seq<string>)
    requires |args| > 1 && Sendable(args)
    ensures Sendable(args[1..]) && !EndsInBackslash(args[0])
  {
    hide Quotable, EndsInBackslash;
  }

  // Counting: which arguments can arrive unchanged at all.

  function Weight(args: seq<string>): nat {
    if args == [] then 0 else Weight(args[..|args| - 1]) + |args[|args| - 1]|
  }

  function Spaces(line: string): nat {
    if line == "" then 0 else Spaces(line[..|line| - 1]) + (if IsSpace(line[|line| - 1]) then 1 else 0)
  }

  /** White space with no backslash in front. */
  function Separators(line: string): nat {
    if line == "" then 0
    else
      var before := line[..|line| - 1];
      Separators(before) + (if IsSpace(line[|line| - 1]) && !EndsInBackslash(before) then 1 else 0)
  }

  lemma WeightAppend(args: seq<string>, arg: string)
    ensures Weight(args + [arg]) == Weight(args) + |arg|
  {
    assert (args + [arg])[..|args|] == args;
  }

  lemma NextCounts(scan: Scan, c: char)
    requires Consistent(scan)
    ensures var r := Next(scan, c);
      && Weight(r.args) == Weight(scan.args) + (if IsSpace(c) then 0 else 1)
      && |r.args| + (if r.inArg then 0 else 1) <=
         |scan.args| + (if scan.inArg then 0 else 1) + (if IsSpace(c) && !scan.escaped then 1 else 0)
  {
    hide IsSpace, Weight;
    var arg, closed := OpenArg(scan), ClosedArgs(scan);
    if scan.inArg {
      assert scan.args == closed + [arg];
      WeightAppend(closed, arg);
    }
    WeightAppend(closed, arg + [c]);
    if arg != "" {
      WeightAppend(closed, arg[..|arg| - 1] + [c]);
    }
  }

  /** Every white space costs one character, and separators bound the number of arguments. */
  lemma {:induction false} TokensCount(line: string)
    ensures var scan := Scanned(START, line);
      && Weight(scan.args) + Spaces(line) == |line|
      && |scan.args| + (if scan.inArg then 0 else 1) <= 1 + Separators(line)
  {
    hide Next, Consistent, IsSpace, EndsInBackslash;
    if line == "" {
      assert Weight([]) == 0;
    } else {
      var before := line[..|line| - 1];
      TokensCount(before);
      ScannedConsistent(before);
      EscapedIsBackslash(before);
      NextCounts(Scanned(START, before), line[|line| - 1]);
    }
  }

  lemma {:induction false} WeightFromFront(args: seq<string>)
    requires args != []
    ensures Weight(args) == |args[0]| + Weight(args[1..])
  {
    if |args| > 1 {
      var n := |args| - 1;
      WeightFromFront(args[..n]);
      assert args[1..][..n - 1] == args[..n][1..];
    }
  }

  lemma {:induction false} SpacesAppend(a: string, b: string)
    ensures Spaces(a + b) == Spaces(a) + Spaces(b)
  {
    hide IsSpace;
    if b == "" {
      assert a + b == a;
    } else {
      assert (a + b)[..|a + b| - 1] == a + b[..|b| - 1];
      SpacesAppend(a, b[..|b| - 1]);
    }
  }

  lemma SpacesOfOne(c: char)
    ensures Spaces([c]) == if IsSpace(c) then 1 else 0
  {
    assert [c][..0] == "";
    assert Spaces("") == 0;
  }

  lemma SpacesOfQuoted(c: char)
    ensures |Quote([c])| - Spaces(Quote([c])) == if IsSpace(c) && c != ' ' then 0 else 1
  {
    assert [c][1..] == "";
    if c == ' ' {
      assert Quote([c]) == [BACKSLASH] + [' '];
      SpacesAppend([BACKSLASH], [' ']);
      SpacesOfOne(BACKSLASH);
      SpacesOfOne(' ');
    } else {
      assert Quote([c]) == [c];
      SpacesOfOne(c);
    }
  }

  /** A quoted argument keeps its length, white space apart, exactly if it is quotable. */
  lemma {:induction false} QuoteCounts(arg: string)
    ensures |Quote(arg)| - Spaces(Quote(arg)) <= |arg|
    ensures |Quote(arg)| - Spaces(Quote(arg)) == |arg| ==> Quotable(arg)
  {
    hide IsSpace;
    if arg != "" {
      var first, rest := arg[..1], arg[1..];
      assert arg == first + rest && first == [arg[0]];
      QuoteAppend(first, rest);
      SpacesAppend(Quote(first), Quote(rest));
      SpacesOfQuoted(arg[0]);
      QuoteCounts(rest);
      assert forall k :: 1 <= k < |arg| ==> arg[k] == rest[k - 1];
    }
  }

  lemma {:induction false} LineCounts(args: seq<string>)
    requires args != []
    ensures |Line(args)| - Spaces(Line(args)) <= Weight(args)
    ensures |Line(args)| - Spaces(Line(args)) == Weight(args) ==> forall k :: 0 <= k < |args| ==> Quotable(args[k])
  {
    hide Quotable, Spaces, Weight, Quote, Line, IsSpace;
    WeightFromFront(args);
    QuoteCounts(args[0]);
    if |args| == 1 {
      LineOfOne(args[0]);
      assert args == [args[0]];
      NoWeight();
    } else {
      var rest := args[1..];
      LineOfMore(args);
      LineCounts(rest);
      ASpace();
      SpacesOfOne(' ');
      SpacesAppend(Quote(args[0]) + " ", Line(rest));
      SpacesAppend(Quote(args[0]), " ");
      assert forall k :: 1 <= k < |args| ==> args[k] == rest[k - 1];
    }
  }

  lemma NoWeight()
    ensures Weight([]) == 0
  {
  }

  lemma {:induction false} SeparatorsOfTwo(a: string, c: char, b: string)
    requires IsSpace(c)
    ensures Separators(a + [c] + b) == Separators(a) + (if EndsInBackslash(a) then 0 else 1) + Separators(b)
  {
    NotSpace();
    if b == "" {
      assert (a + [c] + b)[..|a|] == a;
    } else {
      var n := |b| - 1;
      assert (a + [c] + b)[..|a + [c] + b| - 1] == a + [c] + b[..n];
      SeparatorsOfTwo(a, c, b[..n]);
    }
  }

  /** Quoting leaves no white space without a backslash. */
  lemma {:induction false} QuotedHasNoSeparators(arg: string)
    requires Quotable(arg)
    ensures Separators(Quote(arg)) == 0
  {
    if arg == "" {
      assert Separators("") == 0;
    } else {
      var n := |arg| - 1;
      assert arg == arg[..n] + [arg[n]];
      QuoteAppend(arg[..n], [arg[n]]);
      QuotedHasNoSeparators(arg[..n]);
      assert [arg[n]][1..] == "";
      var q := Quote(arg[..n]);
      if arg[n] == ' ' {
        assert Quote(arg) == q + [BACKSLASH] + [' '];
        SeparatorsMore(q, BACKSLASH);
        SeparatorsMore(q + [BACKSLASH], ' ');
      } else {
        assert Quote(arg) == q + [arg[n]];
        SeparatorsMore(q, arg[n]);
      }
    }
  }

  lemma SeparatorsMore(line: string, c: char)
    ensures Separators(line + [c]) == Separators(line) + (if IsSpace(c) && !EndsInBackslash(line) then 1 else 0)
  {
    assert (line + [c])[..|line|] == line;
  }

  lemma {:induction false} LineSeparators(args: seq<string>)
    requires args != [] && forall k :: 0 <= k < |args| ==> Quotable(args[k])
    ensures Separators(Line(args)) <= |args| - 1
    ensures Separators(Line(args)) == |args| - 1 ==> forall k :: 0 <= k < |args| - 1 ==> !EndsInBackslash(args[k])
  {
    hide Quotable, EndsInBackslash, Separators, Quote, Line;
    QuotedHasNoSeparators(args[0]);
    if |args| == 1 {
      LineOfOne(args[0]);
      assert args == [args[0]];
    } else {
      var rest := args[1..];
      LineOfMore(args);
      LineSeparators(rest);
      QuoteEnds(args[0]);
      ASpace();
      SeparatorsOfTwo(Quote(args[0]), ' ', Line(rest));
      assert forall k :: 1 <= k < |args| ==> args[k] == rest[k - 1];
    }
  }

  /** Taking apart undoes quoting and joining exactly for the arguments that are sendable. */
  lemma QuoteThenTokenize(args: seq<string>)
    requires args != []
    ensures Tokens(Line(args)) == args <==> Sendable(args)
  {
    hide Line, Scanned, Quotable, EndsInBackslash, Separators, Spaces, Weight;
    if Sendable(args) {
      SendableArrives(args);
    }
    if Tokens(Line(args)) == args {
      ScannedConsistent(Line(args));
      TokensCount(Line(args));
      LineCounts(args);
      LineSeparators(args);
    }
  }
}
