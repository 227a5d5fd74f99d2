/** The user interface's side: options go out one by one, or as a single line after a lock. */
module OptionBatch {
  import opened CommandLine

  /** The file of an option: None, or a path, which is empty when the option takes no file. */
  datatype FileName = NoneGiven | Path(path: string, present: bool)

  datatype Request = Skipped | Request(line: string)

  /** The line for an option; one with a missing file is skipped. */
  function RequestFor(option: string, filename: FileName): Request {
    match filename
    case NoneGiven => Request(option + " " + "none")
    case Path(path, present) =>
      if path == "" then Request(option)
      else if present then Request(option + " " + Quote(path))
      else Skipped
  }

  /** The arguments of several lines. */
  function AllTokens(lines: seq<string>): seq<string> {
    if lines == [] then [] else Tokens(lines[0]) + AllTokens(lines[1..])
  }

  lemma {:induction false} AllTokensAppend(lines: seq<string>, line: string)
    ensures AllTokens(lines + [line]) == AllTokens(lines) + Tokens(line)
  {
    hide Tokens;
    if lines == [] {
      assert ([line])[1..] == [];
    } else {
      assert (lines + [line])[1..] == lines[1..] + [line];
      AllTokensAppend(lines[1..], line);
    }
  }

  /** Lines that do not swallow the space behind them. */
  ghost predicate Separable(lines: seq<string>) {
    forall k :: 0 <= k < |lines| - 1 ==> !EndsInBackslash(lines[k])
  }

  lemma {:induction false} AllTokensOfTwo(a: seq<string>, b: seq<string>)
    ensures AllTokens(a + b) == AllTokens(a) + AllTokens(b)
  {
    hide Tokens;
    if a == [] {
      assert a + b == b;
    } else {
      assert (a + b)[1..] == a[1..] + b;
      AllTokensOfTwo(a[1..], b);
    }
  }

  /** A batch means what its lines mean one by one, if and only if no line but the last ends in a
      backslash; otherwise some argument is another one. */
  lemma {:induction false} BatchMeansSame(lines: seq<string>)
    ensures Tokens(Join(lines)) == AllTokens(lines) <==> Separable(lines)
    ensures Separable(lines) || Differ(Tokens(Join(lines)), AllTokens(lines))
  {
    hide Tokens, EndsInBackslash, Differ;
    if lines == [] {
      NoTokens();
    } else if |lines| == 1 {
      assert lines[1..] == [];
    } else {
      var first, rest := lines[0], lines[1..];
      SeparableCons(lines);
      BatchMeansSame(rest);
      TokensOfTwo(first, Join(rest));
      if EndsInBackslash(first) {
        SpaceSwallowed(first, Join(rest), AllTokens(rest));
        DifferIsUnequal(Tokens(Join(lines)), AllTokens(lines));
      } else if !Separable(rest) {
        DifferBehind(Tokens(first), Tokens(Join(rest)), AllTokens(rest));
        DifferIsUnequal(Tokens(Join(lines)), AllTokens(lines));
      }
    }
  }

  lemma SeparableCons(lines: seq<string>)
    requires |lines| > 1
    ensures Separable(lines) <==> !EndsInBackslash(lines[0]) && Separable(lines[1..])
  {
    hide EndsInBackslash;
    assert forall k :: 0 <= k < |lines| - 2 ==> lines[1..][k] == lines[k + 1];
    if !EndsInBackslash(lines[0]) && Separable(lines[1..]) {
      forall k | 0 <= k < |lines| - 1 ensures !EndsInBackslash(lines[k]) {
        if k > 0 {
          assert !EndsInBackslash(lines[1..][k - 1]);
        }
      }
    }
  }

  lemma DifferIsUnequal(a: seq<string>, b: seq<string>)
    requires Differ(a, b)
    ensures a != b
  {
  }

  lemma DifferBehind(front: seq<string>, a: seq<string>, b: seq<string>)
    requires Differ(a, b)
    ensures Differ(front + a, front + b)
  {
    var j :| 0 <= j < |a| && j < |b| && a[j] != b[j];
    assert (front + a)[|front| + j] != (front + b)[|front| + j];
  }

  lemma DifferBefore(a: seq<string>, b: seq<string>, c: seq<string>, d: seq<string>)
    requires Differ(a, b)
    ensures Differ(a + c, b + d)
  {
    var j :| 0 <= j < |a| && j < |b| && a[j] != b[j];
    assert (a + c)[j] != (b + d)[j];
  }

  lemma NoTokens()
    ensures Tokens("") == []
  {
  }

  /** The line for an option and its file has the option's arguments and the file's own path. */
  lemma PathArrives(option: string, path: string)
    requires !EndsInBackslash(option) && path != "" && Quotable(path)
    ensures Tokens(option + " " + Quote(path)) == Tokens(option) + [path]
  {
    hide Quotable, Quote, EndsInBackslash;
    TokensOfTwo(option, Quote(path));
    ScanQuoted([], path);
    assert [] + [path] == [path];
  }

  /** The line has the option's arguments and "none", nothing, or the path itself, unless the option
      swallows the space or the path has white space other than plain spaces. */
  predicate Means(line: string, option: string, filename: FileName) {
    !EndsInBackslash(option) && (filename.Path? ==> Quotable(filename.path)) ==>
      Tokens(line) == Tokens(option) +
        match filename
        case NoneGiven => ["none"]
        case Path(path, _) => if path == "" then [] else [path]
  }

  predicate Missing(filename: FileName) {
    filename.Path? && filename.path != "" && !filename.present
  }

  /** What a request means; only one with a missing file is skipped. */
  lemma RequestMeans(option: string, filename: FileName)
    ensures RequestFor(option, filename) == Skipped <==> Missing(filename)
    ensures !Missing(filename) ==> Means(RequestFor(option, filename).line, option, filename)
  {
    hide Tokens, Quotable, Quote, EndsInBackslash;
    if !EndsInBackslash(option) {
      if filename == NoneGiven {
        TokensOfTwo(option, "none");
        NoneIsOneToken();
      } else if filename.path == "" {
        assert Tokens(option) + [] == Tokens(option);
      } else if Quotable(filename.path) {
        PathArrives(option, filename.path);
      }
    }
  }

  lemma NoneIsOneToken()
    ensures Tokens("none") == ["none"]
  {
    hide Scanned;
    NoneIsPlain();
    ScanQuoted([], "none");
    assert [] + ["none"] == ["none"];
  }

  lemma NoneIsPlain()
    ensures Quotable("none") && Quote("none") == "none"
  {
    assert Quote("") == "" && Quote("e") == "e" && Quote("ne") == "ne" && Quote("one") == "one";
  }

  class Updates {
    var locked: bool
    var options: seq<string>
    // The lines sent to the emulator.
    var sent: seq<string>
    // The lines asked for, in order, and whether every batch among them was separable.
    ghost var requested: seq<string>
    ghost var intact: bool

    /** The lines asked for that are not held back. */
    ghost function Done(): seq<string>
      reads this
    {
      if |options| <= |requested| then requested[..|requested| - |options|] else []
    }

    /** Only a lock holds options back, and what was sent means what was asked for exactly as long
        as every batch was separable. */
    ghost predicate Valid()
      reads this
    {
      && (!locked ==> options == []) && |options| <= |requested| && requested == Done() + options
      && (if intact then AllTokens(sent) == AllTokens(Done()) else Differ(AllTokens(sent), AllTokens(Done())))
    }

    constructor ()
      ensures Valid() && !locked && sent == [] && requested == [] && intact
    {
      locked, options, sent, requested, intact := false, [], [], [], true;
    }

    method ChangeOption(option: string, filename: FileName)
      requires Valid()
      modifies this
      ensures Valid() && locked == old(locked) && intact == old(intact)
      ensures var request := RequestFor(option, filename);
        requested == if request == Skipped then old(requested) else old(requested) + [request.line]
      ensures Missing(filename) ==> sent == old(sent) && options == old(options)
      ensures !Missing(filename) ==>
        exists line ::
          && Means(line, option, filename)
          && sent == (if locked then old(sent) else old(sent) + [line])
          && options == (if locked then old(options) + [line] else [])
    {
      hide Tokens, Differ, Means;
      RequestMeans(option, filename);
      var line := option;
      if filename == NoneGiven {
        line := option + " " + "none";
      } else if filename.path != "" {
        if filename.present {
          line := option + " " + Quote(filename.path);
        } else {
          return;
        }
      }
      ghost var done := Done();
      requested := requested + [line];
      if locked {
        options := options + [line];
        assert Done() == done;
      } else {
        SendOne(line, done);
      }
    }

    /** A line on its own keeps what was sent and what was asked for alike, or different. */
    method SendOne(line: string, ghost done: seq<string>)
      requires options == [] && requested == done + [line]
      requires if intact then AllTokens(sent) == AllTokens(done) else Differ(AllTokens(sent), AllTokens(done))
      modifies this`sent
      ensures sent == old(sent) + [line] && Done() == requested
      ensures if intact then AllTokens(sent) == AllTokens(requested) else Differ(AllTokens(sent), AllTokens(requested))
    {
      hide Tokens, Differ;
      AllTokensAppend(sent, line);
      AllTokensAppend(done, line);
      if !intact {
        DifferBefore(AllTokens(sent), AllTokens(done), Tokens(line), Tokens(line));
      }
      sent := sent + [line];
      assert Done() == requested;
    }

    method LockUpdates()
      requires Valid()
      modifies this`locked
      ensures Valid() && locked
    {
      locked := true;
    }

    /** Sends what was held back as one line.  Then the emulator has seen the arguments of
        everything asked for, in order, if and only if no line of a batch swallowed the space
        behind it. */
    method FlushUpdates()
      requires Valid()
      modifies this`locked, this`options, this`sent, this`intact
      ensures Valid() && !locked && options == []
      ensures sent == if old(options) == [] then old(sent) else old(sent) + [Join(old(options))]
      ensures intact == (old(intact) && Separable(old(options)))
      ensures AllTokens(sent) == AllTokens(requested) <==> intact
    {
      hide Tokens, Differ, Separable;
      locked := false;
      ghost var done := Done();
      assert options == [] ==> requested == done;
      if options == [] {
        NoneSeparable();
        if !intact {
          DifferIsUnequal(AllTokens(sent), AllTokens(requested));
        }
        return;
      }
      var line := Join(options);
      AllTokensAppend(sent, line);
      AllTokensOfTwo(done, options);
      BatchMeansSame(options);
      if !intact {
        DifferBefore(AllTokens(sent), AllTokens(done), Tokens(line), AllTokens(options));
      } else if !Separable(options) {
        DifferBehind(AllTokens(sent), Tokens(line), AllTokens(options));
      }
      intact := intact && Separable(options);
      sent := sent + [line];
      options := [];
      assert Done() == requested;
      if !intact {
        DifferIsUnequal(AllTokens(sent), AllTokens(requested));
      }
    }
  }

  lemma NoneSeparable()
    ensures Separable([])
  {
  }
}
