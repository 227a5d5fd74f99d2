/** From the user interface over the control socket to the tokenizer: the command is cut at the
    newline and trimmed in between. */
module ControlLine {
  import opened CString
  import opened CommandLine

  function FirstLine(s: string): string {
    if s == "" || s[0] == '\n' then "" else [s[0]] + FirstLine(s[1..])
  }

  function TrimFront(s: string): string {
    if s != "" && IsSpace(s[0]) then TrimFront(s[1..]) else s
  }

  function TrimBack(s: string): string {
    if s != "" && IsSpace(s[|s| - 1]) then TrimBack(s[..|s| - 1]) else s
  }

  function Trim(s: string): string {
    TrimBack(TrimFront(s))
  }

  /** The arguments that arrive when the user interface sends some. */
  function Arriving(args: seq<string>): seq<string> {
    Tokens(Trim(FirstLine(Line(args))))
  }

  function Net(s: string): int {
    |s| - Spaces(s)
  }

  lemma {:induction false} TrimFrontCounts(s: string)
    ensures Net(TrimFront(s)) == Net(s) && Separators(TrimFront(s)) <= Separators(s)
  {
    hide IsSpace, Spaces, Separators;
    if s != "" && IsSpace(s[0]) {
      assert s == [s[0]] + s[1..] && s == "" + [s[0]] + s[1..];
      SpacesAppend([s[0]], s[1..]);
      SpacesOfOne(s[0]);
      SeparatorsOfTwo("", s[0], s[1..]);
      TrimFrontCounts(s[1..]);
    }
  }

  lemma {:induction false} TrimBackCounts(s: string)
    ensures Net(TrimBack(s)) == Net(s) && Separators(TrimBack(s)) <= Separators(s)
  {
    hide IsSpace;
    if s != "" && IsSpace(s[|s| - 1]) {
      TrimBackCounts(s[..|s| - 1]);
    }
  }

  lemma {:induction false} FirstLineCounts(s: string)
    ensures Net(FirstLine(s)) <= Net(s)
    ensures '\n' !in s ==> FirstLine(s) == s
  {
    hide IsSpace, Spaces;
    if s != "" {
      assert s == [s[0]] + s[1..];
      SpacesAppend([s[0]], s[1..]);
      SpacesOfOne(s[0]);
      FirstLineCounts(s[1..]);
      if s[0] == '\n' {
        NoSpaces();
        SpacesBound(s[1..]);
      } else {
        SpacesAppend([s[0]], FirstLine(s[1..]));
      }
    } else {
      NoSpaces();
    }
  }

  lemma NoSpaces()
    ensures Spaces("") == 0
  {
  }

  lemma {:induction false} SpacesBound(s: string)
    ensures Spaces(s) <= |s|
  {
    if s != "" {
      SpacesBound(s[..|s| - 1]);
    }
  }

  /** Quoting and joining add no newline. */
  lemma {:induction false} LineHasNoNewline(args: seq<string>)
    requires args != [] && forall k :: 0 <= k < |args| ==> Quotable(args[k])
    ensures '\n' !in Line(args)
  {
    hide Quotable, Line;
    QuoteHasNoNewline(args[0]);
    if |args| == 1 {
      LineOfOne(args[0]);
      assert args == [args[0]];
    } else {
      LineOfMore(args);
      LineHasNoNewline(args[1..]);
    }
  }

  lemma {:induction false} QuoteHasNoNewline(arg: string)
    requires Quotable(arg)
    ensures '\n' !in Quote(arg)
  {
    if arg != "" {
      assert IsSpace('\n');
      assert forall k :: 1 <= k < |arg| ==> arg[1..][k - 1] == arg[k];
      QuoteHasNoNewline(arg[1..]);
    }
  }

  predicate EndsInSpace(s: string) {
    s != "" && IsSpace(s[|s| - 1])
  }

  /** The line of sendable arguments starts with no white space and ends like the last one. */
  lemma {:induction false} LineEdges(args: seq<string>)
    requires args != [] && Sendable(args)
    ensures Line(args) != "" && !IsSpace(Line(args)[0])
    ensures Line(args)[|Line(args)| - 1] == args[|args| - 1][|args[|args| - 1]| - 1]
    ensures EndsInSpace(args[|args| - 1]) ==> |Line(args)| > 1 && Line(args)[|Line(args)| - 2] == BACKSLASH
  {
    hide Quotable, EndsInBackslash, Line;
    QuoteEdges(args[0]);
    if |args| == 1 {
      LineOfOne(args[0]);
      assert args == [args[0]];
    } else {
      LineOfMore(args);
      SendableRest(args);
      LineEdges(args[1..]);
    }
  }

  lemma {:induction false} QuoteEdges(arg: string)
    requires arg != "" && Quotable(arg)
    ensures var q := Quote(arg);
      && q != "" && !IsSpace(q[0]) && q[|q| - 1] == arg[|arg| - 1]
      && (EndsInSpace(arg) ==> |q| > 1 && q[|q| - 2] == BACKSLASH)
  {
    NotSpace();
    if |arg| == 1 {
      assert Quote(arg[1..]) == "";
    } else {
      assert forall k :: 1 <= k < |arg| ==> arg[1..][k - 1] == arg[k];
      QuoteEdges(arg[1..]);
    }
  }

  /** A trailing space of the last argument is trimmed away and leaves its backslash. */
  lemma TrimmedEnd(line: string)
    requires line != "" && !IsSpace(line[0])
    ensures !IsSpace(line[|line| - 1]) ==> Trim(line) == line
    ensures IsSpace(line[|line| - 1]) && |line| > 1 && line[|line| - 2] == BACKSLASH ==>
        Trim(line) == line[..|line| - 1]
  {
    NotSpace();
    assert TrimFront(line) == line;
    if IsSpace(line[|line| - 1]) && |line| > 1 && line[|line| - 2] == BACKSLASH {
      assert TrimBack(line[..|line| - 1]) == line[..|line| - 1];
    }
  }

  lemma BackslashStays(line: string)
    requires EndsInBackslash(line)
    ensures var tokens := Tokens(line); tokens != [] && EndsInBackslash(tokens[|tokens| - 1])
  {
    hide Scanned;
    EscapedIsBackslash(line);
    ScannedConsistent(line);
  }

  /** Sendable arguments arrive exactly if the last one does not end in white space. */
  lemma SendableTrimmed(args: seq<string>)
    requires args != [] && Sendable(args)
    ensures Arriving(args) == args <==> !EndsInSpace(args[|args| - 1])
  {
    hide Quotable, Line, Tokens, Trim, FirstLine, Sendable;
    var line := Line(args);
    SendableParts(args);
    LineHasNoNewline(args);
    FirstLineCounts(line);
    LineEdges(args);
    TrimmedEnd(line);
    if EndsInSpace(args[|args| - 1]) {
      BackslashStays(line[..|line| - 1]);
      NotSpace();
    } else {
      SendableArrives(args);
    }
  }

  lemma SendableParts(args: seq<string>)
    requires Sendable(args)
    ensures forall k :: 0 <= k < |args| ==> args[k] != "" && Quotable(args[k])
  {
  }

  /** Arguments arrive unchanged if and only if none is empty, their only white space is plain
      spaces, none but the last ends in a backslash, and the last does not end in a space. */
  lemma WhatArrives(args: seq<string>)
    requires args != []
    ensures Arriving(args) == args <==> Sendable(args) && !EndsInSpace(args[|args| - 1])
  {
    hide Line, Scanned, Quotable, EndsInBackslash, Separators, Spaces, Weight, Trim, FirstLine, IsSpace;
    if Arriving(args) == args {
      OnlySendable(args);
    }
    if Sendable(args) {
      SendableTrimmed(args);
    }
  }

  lemma OnlySendable(args: seq<string>)
    requires args != [] && Arriving(args) == args
    ensures Sendable(args)
  {
    hide Line, Scanned, Quotable, EndsInBackslash, Separators, Spaces, Weight, TrimFront, TrimBack, FirstLine, IsSpace;
    var line := Line(args);
    var first := FirstLine(line);
    var trimmed := Trim(first);
    ScannedConsistent(trimmed);
    TokensCount(trimmed);
    FirstLineCounts(line);
    TrimFrontCounts(first);
    TrimBackCounts(TrimFront(first));
    LineCounts(args);
    LineHasNoNewline(args);
    LineSeparators(args);
  }

  /** Trims the string in a buffer in place. */
  method StrTrim(buffer: array<char>, ghost s: string)
    requires IsString(buffer[..], 0, s)
    modifies buffer
    ensures IsString(buffer[..], 0, Trim(s))
  {
    hide IsSpace;
    var lineLen := StringLength(buffer, 0, s);
    assert buffer[..][0..|s|] == s;
    var i := 0;
    while i < lineLen && IsSpace(buffer[i])
      invariant i <= lineLen
      invariant forall k :: 0 <= k < i ==> IsSpace(s[k])
      invariant TrimFront(s) == TrimFront(s[i..])
    {
      assert s[i..][1..] == s[i + 1..];
      i := i + 1;
    }
    ghost var t := s;
    if 0 < i < lineLen {
      t := s[i..];
      lineLen := lineLen - i;
      forall k | 0 <= k < lineLen {
        buffer[k] := buffer[k + i];
      }
    }
    assert buffer[..lineLen] == t;
    if i == |s| {
      AllSpaces(s);
    }
    CutTail(buffer, lineLen, t);
  }

  lemma {:induction false} AllSpaces(s: string)
    requires forall k :: 0 <= k < |s| ==> IsSpace(s[k])
    ensures TrimBack(s) == ""
  {
    hide IsSpace;
    if s != "" {
      AllSpaces(s[..|s| - 1]);
    }
  }

  /** Ends the string of length `n` before its trailing white space. */
  method CutTail(buffer: array<char>, n: nat, ghost t: string)
    requires n < buffer.Length && buffer[..n] == t && NUL !in t
    modifies buffer
    ensures IsString(buffer[..], 0, TrimBack(t))
  {
    hide IsSpace;
    var i := n;
    assert t[..i] == t;
    while i > 0 && IsSpace(buffer[i - 1])
      invariant i <= n && buffer[..n] == t
      invariant TrimBack(t) == TrimBack(t[..i])
    {
      assert t[..i][..i - 1] == t[..i - 1];
      i := i - 1;
    }
    assert TrimBack(t) == t[..i];
    buffer[i] := NUL;
    assert buffer[..][0..i] == t[..i];
  }
}
