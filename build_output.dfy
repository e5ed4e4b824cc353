/**
 * The build-script output protocol of `custom_build.rs`: the `BuildOutput`
 * record, `BuildOutput::parse` and `BuildOutput::parse_rustc_flags`.
 *
 * A script prints lines; a line that starts with `cargo:` is split at its
 * first `=` into a key and a value (the value without trailing whitespace).
 * `rustc-link-lib`, `rustc-link-search` and `rustc-cfg` append the value to
 * one list each, `rustc-flags` carries `-l NAME` / `-L PATH` pairs, and any
 * other key becomes a `(key, value)` metadata pair.  Every other line is
 * ignored.
 *
 * The two methods are the source's loops; `RustcFlags` and `ParseText` are
 * the functions they are proved against, and the lemmas below state what the
 * protocol promises about those functions.
 */
module BuildOutputs {
  import opened Wrappers
  import opened Text

  /** The parsed output of one run of a build script. */
  datatype BuildOutput = BuildOutput(
    libraryPaths: seq<string>,        // paths for rustc's `-L` flag
    libraryLinks: seq<string>,        // libraries for rustc's `-l` flag
    cfgs: seq<string>,                // `--cfg` flags
    metadata: seq<(string, string)>)  // passed on to dependent build scripts

  const Empty := BuildOutput([], [], [], [])

  /** Both records' lists, `a`'s entries first. */
  function Append(a: BuildOutput, b: BuildOutput): BuildOutput {
    BuildOutput(a.libraryPaths + b.libraryPaths, a.libraryLinks + b.libraryLinks,
                a.cfgs + b.cfgs, a.metadata + b.metadata)
  }

  /**
   * The three protocol violations; `whence` names the script and `quoted` is
   * the text the message quotes (the offending line, or the trimmed
   * `rustc-flags` value).
   */
  datatype ParseError =
    | WrongOutput(whence: string, quoted: string)
    | FlagNotAllowed(whence: string, quoted: string)
    | FlagWithoutValue(whence: string, quoted: string)

  /** How error messages name the script of package `pkgName`. */
  function Whence(pkgName: string): string {
    "build script of `" + pkgName + "`"
  }

  /** The words each kind of error message opens with. */
  function Opening(e: ParseError): string {
    match e
    case WrongOutput(_, _) => "Wrong output in "
    case FlagNotAllowed(_, _) => "Only `-l` and `-L` flags are allowed in "
    case FlagWithoutValue(_, _) => "Flag in rustc-flags has no value in "
  }

  /** The human-readable message the source reports for each error. */
  function Message(e: ParseError): string {
    Opening(e) + (e.whence + ": `" + e.quoted + "`")
  }

  /**
   * Every message names the script and ends with the quoted text in
   * backquotes, and its first character tells the three kinds apart.
   */
  lemma MessageQuotes(e: ParseError)
    ensures var m := Message(e); var tail := e.whence + ": `" + e.quoted + "`";
      |tail| < |m| && m[|m| - |tail|..] == tail
    ensures Message(e)[0] == (if e.WrongOutput? then 'W' else if e.FlagNotAllowed? then 'O' else 'F')
  {
    var head, tail := Opening(e), e.whence + ": `" + e.quoted + "`";
    assert head != [] && head[0] == (if e.WrongOutput? then 'W' else if e.FlagNotAllowed? then 'O' else 'F');
    assert (head + tail)[|head|..] == tail;
  }

  /** For one script, the message identifies the error: kind and quoted text. */
  lemma MessageIdentifies(e1: ParseError, e2: ParseError)
    requires e1.whence == e2.whence && Message(e1) == Message(e2)
    ensures e1 == e2
  {
    MessageQuotes(e1);
    MessageQuotes(e2);
    var m := Message(e1);
    var tail1 := e1.whence + ": `" + e1.quoted + "`";
    var tail2 := e2.whence + ": `" + e2.quoted + "`";
    if e1.WrongOutput? == e2.WrongOutput? && e1.FlagNotAllowed? == e2.FlagNotAllowed? {
      // The same kind: the same text precedes the tails, so the tails agree.
      assert |tail1| == |tail2|;
      assert m[|m| - |tail1|..] == tail1 && m[|m| - |tail2|..] == tail2;
      assert e1.quoted == tail1[|e1.whence| + 3..|tail1| - 1];
      assert e2.quoted == tail2[|e2.whence| + 3..|tail2| - 1];
    }
  }

  // ---------------------------------------------------------------------------
  // `rustc-flags`
  // ---------------------------------------------------------------------------

  /** What `parse_rustc_flags` returns: (library paths, library links). */
  type Flags = (seq<string>, seq<string>)

  predicate IsFlag(t: string) {
    t == "-l" || t == "-L"
  }

  /**
   * The token loop of `parse_rustc_flags` from token list `ts` on, with the
   * paths and links collected so far; `flags` is the trimmed value that
   * error messages quote.
   */
  function FlagsFrom(ts: seq<string>, paths: seq<string>, links: seq<string>,
                     whence: string, flags: string): Result<Flags, ParseError>
    decreases |ts|
  {
    if ts == [] then Ok((paths, links))
    else if !IsFlag(ts[0]) then Err(FlagNotAllowed(whence, flags))
    else if |ts| == 1 then Err(FlagWithoutValue(whence, flags))
    else if ts[0] == "-l" then FlagsFrom(ts[2..], paths, links + [ts[1]], whence, flags)
    else FlagsFrom(ts[2..], paths + [ts[1]], links, whence, flags)
  }

  /** The result `parse_rustc_flags(value, whence)` specifies. */
  function RustcFlags(value: string, whence: string): Result<Flags, ParseError> {
    var flags := Trim(value);
    FlagsFrom(Tokens(flags), [], [], whence, flags)
  }

  /**
   * `BuildOutput::parse_rustc_flags`: reads the whitespace-separated tokens
   * of `value` two at a time, a flag and its argument.
   */
  method ParseRustcFlags(value: string, whence: string) returns (r: Result<Flags, ParseError>)
    ensures r == RustcFlags(value, whence)
  {
    var flags := Trim(value);
    var tokens := Tokens(flags);
    var libraryLinks: seq<string>, libraryPaths: seq<string> := [], [];
    ghost var spec := RustcFlags(value, whence);
    assert spec == FlagsFrom(tokens, [], [], whence, flags);
    var i := 0;
    while i < |tokens|
      invariant 0 <= i <= |tokens|
      invariant spec == FlagsFrom(tokens[i..], libraryPaths, libraryLinks, whence, flags)
    {
      var flag := tokens[i];
      if flag != "-l" && flag != "-L" {
        return Err(FlagNotAllowed(whence, flags));
      }
      if i + 1 == |tokens| {
        return Err(FlagWithoutValue(whence, flags));
      }
      var arg := tokens[i + 1];
      FlagsFromStep(tokens, i, libraryPaths, libraryLinks, whence, flags);
      if flag == "-l" {
        libraryLinks := libraryLinks + [arg];
      } else {
        libraryPaths := libraryPaths + [arg];
      }
      i := i + 2;
    }
    return Ok((libraryPaths, libraryLinks));
  }

  /** One turn of the token loop, at position `i` of `ts`. */
  lemma FlagsFromStep(ts: seq<string>, i: nat, paths: seq<string>, links: seq<string>,
                      whence: string, flags: string)
    requires i < |ts|
    ensures var rest := ts[i..];
      FlagsFrom(rest, paths, links, whence, flags)
      == if !IsFlag(ts[i]) then Err(FlagNotAllowed(whence, flags))
         else if i + 1 == |ts| then Err(FlagWithoutValue(whence, flags))
         else if ts[i] == "-l" then FlagsFrom(ts[i + 2..], paths, links + [ts[i + 1]], whence, flags)
         else FlagsFrom(ts[i + 2..], paths + [ts[i + 1]], links, whence, flags)
  {
    var rest := ts[i..];
    assert rest[0] == ts[i];
    if i + 1 < |ts| {
      assert rest[1] == ts[i + 1];
      assert rest[2..] == ts[i + 2..];
    }
  }

  // ---------------------------------------------------------------------------
  // Lines
  // ---------------------------------------------------------------------------

  /** What one line of script output is, for the parser. */
  datatype LineKind =
    | Skipped                              // not a `cargo:` line
    | Malformed                            // `cargo:` without `=`
    | KeyValue(key: string, value: string) // value already right-trimmed

  /** The `splitn(2, ':')` and `splitn(2, '=')` steps of `parse`. */
  function Classify(line: string): LineKind {
    var (head, data) := SplitOnce(line, ':');
    if head != "cargo" || data.None? then Skipped
    else
      var (key, value) := SplitOnce(data.value, '=');
      if value.None? then Malformed else KeyValue(key, TrimEnd(value.value))
  }

  /** What one line adds to the record, or the error it raises. */
  function LineOutput(line: string, whence: string): Result<BuildOutput, ParseError> {
    match Classify(line)
    case Skipped => Ok(Empty)
    case Malformed => Err(WrongOutput(whence, line))
    case KeyValue(key, value) =>
      if key == "rustc-flags" then
        match RustcFlags(value, whence)
        case Err(e) => Err(e)
        case Ok((paths, links)) => Ok(Empty.(libraryPaths := paths, libraryLinks := links))
      else if key == "rustc-link-lib" then Ok(Empty.(libraryLinks := [value]))
      else if key == "rustc-link-search" then Ok(Empty.(libraryPaths := [value]))
      else if key == "rustc-cfg" then Ok(Empty.(cfgs := [value]))
      else Ok(Empty.(metadata := [(key, value)]))
  }

  /** The line loop of `parse` from `lines` on, with record `acc` so far. */
  function ParseFrom(acc: BuildOutput, lines: seq<string>, whence: string): Result<BuildOutput, ParseError>
    decreases |lines|
  {
    if lines == [] then Ok(acc)
    else
      match LineOutput(lines[0], whence)
      case Err(e) => Err(e)
      case Ok(out) => ParseFrom(Append(acc, out), lines[1..], whence)
  }

  function ParseLines(lines: seq<string>, whence: string): Result<BuildOutput, ParseError> {
    ParseFrom(Empty, lines, whence)
  }

  /** The result `BuildOutput::parse(input, pkg_name)` specifies. */
  function ParseText(input: string, pkgName: string): Result<BuildOutput, ParseError> {
    ParseLines(Lines(input), Whence(pkgName))
  }

  /** What each line contributes, or the error it raises, line by line. */
  function LineOutputs(lines: seq<string>, whence: string): (outs: seq<Result<BuildOutput, ParseError>>)
    ensures |outs| == |lines|
    ensures forall i :: 0 <= i < |lines| ==> outs[i] == LineOutput(lines[i], whence)
  {
    seq(|lines|, i requires 0 <= i < |lines| => LineOutput(lines[i], whence))
  }

  /** The line loop over the lines' own results: the first error, or all appended. */
  function Fold(acc: BuildOutput, outs: seq<Result<BuildOutput, ParseError>>): Result<BuildOutput, ParseError>
    decreases |outs|
  {
    if outs == [] then Ok(acc)
    else if outs[0].Err? then Err(outs[0].error)
    else Fold(Append(acc, outs[0].value), outs[1..])
  }

  lemma {:induction false} ParseFromFold(acc: BuildOutput, lines: seq<string>, whence: string)
    ensures ParseFrom(acc, lines, whence) == Fold(acc, LineOutputs(lines, whence))
    decreases |lines|
  {
    if lines != [] {
      var outs := LineOutputs(lines, whence);
      assert outs[1..] == LineOutputs(lines[1..], whence);
      if outs[0].Ok? {
        ParseFromFold(Append(acc, outs[0].value), lines[1..], whence);
      }
    }
  }

  /**
   * `BuildOutput::parse`: one pass over the lines, pushing what each line
   * contributes onto four lists and stopping at the first error.
   */
  method Parse(input: string, pkgName: string) returns (r: Result<BuildOutput, ParseError>)
    ensures r == ParseText(input, pkgName)
  {
    var libraryPaths: seq<string>, libraryLinks: seq<string> := [], [];
    var cfgs: seq<string>, metadata: seq<(string, string)> := [], [];
    var whence := Whence(pkgName);
    var lines := Lines(input);
    ghost var outs := LineOutputs(lines, whence);
    ghost var spec := Fold(Empty, outs);
    ParseFromFold(Empty, lines, whence);
    var i := 0;
    while i < |lines|
      invariant 0 <= i <= |lines|
      invariant spec == Fold(BuildOutput(libraryPaths, libraryLinks, cfgs, metadata), outs[i..])
    {
      ghost var acc := BuildOutput(libraryPaths, libraryLinks, cfgs, metadata);
      assert outs[i..][0] == outs[i] && outs[i..][1..] == outs[i + 1..];
      var out := ParseLine(lines[i], whence);
      if out.Err? {
        return Err(out.error);
      }
      libraryPaths := libraryPaths + out.value.libraryPaths;
      libraryLinks := libraryLinks + out.value.libraryLinks;
      cfgs := cfgs + out.value.cfgs;
      metadata := metadata + out.value.metadata;
      i := i + 1;
    }
    return Ok(BuildOutput(libraryPaths, libraryLinks, cfgs, metadata));
  }

  /**
   * The body of the line loop of `parse`: splits one line at its first `:`
   * and first `=`, and dispatches on the key.
   */
  method ParseLine(line: string, whence: string) returns (r: Result<BuildOutput, ParseError>)
    ensures r == LineOutput(line, whence)
  {
    var (head, data) := SplitOnce(line, ':');
    if head != "cargo" || data.None? {
      // not a `cargo:` line
      return Ok(Empty);
    }
    var (key, value) := SplitOnce(data.value, '=');
    if value.None? {
      return Err(WrongOutput(whence, line));
    }
    var v := TrimEnd(value.value);
    assert Classify(line) == KeyValue(key, v);
    if key == "rustc-flags" {
      var flags := ParseRustcFlags(v, whence);
      if flags.Err? {
        return Err(flags.error);
      }
      var (paths, links) := flags.value;
      return Ok(Empty.(libraryPaths := paths, libraryLinks := links));
    } else if key == "rustc-link-lib" {
      return Ok(Empty.(libraryLinks := [v]));
    } else if key == "rustc-link-search" {
      return Ok(Empty.(libraryPaths := [v]));
    } else if key == "rustc-cfg" {
      return Ok(Empty.(cfgs := [v]));
    } else {
      return Ok(Empty.(metadata := [(key, v)]));
    }
  }

  /** One turn of the line loop. */
  lemma ParseFromStep(acc: BuildOutput, lines: seq<string>, whence: string)
    requires lines != []
    ensures var r := LineOutput(lines[0], whence);
      ParseFrom(acc, lines, whence)
      == if r.Err? then Err(r.error) else ParseFrom(Append(acc, r.value), lines[1..], whence)
  {
  }

  // ---------------------------------------------------------------------------
  // What the protocol promises about `rustc-flags`
  // ---------------------------------------------------------------------------

  /** One `-l NAME` or `-L PATH` pair of a `rustc-flags` value. */
  datatype LinkFlag = Lib(name: string) | Search(path: string)

  /** The tokens that spell out a list of flag pairs. */
  function FlagTokens(ds: seq<LinkFlag>): seq<string> {
    if ds == [] then []
    else
      match ds[0]
      case Lib(name) => ["-l", name] + FlagTokens(ds[1..])
      case Search(path) => ["-L", path] + FlagTokens(ds[1..])
  }

  /** The `-L` arguments of a list of flag pairs, in order. */
  function SearchPaths(ds: seq<LinkFlag>): seq<string> {
    if ds == [] then []
    else if ds[0].Search? then [ds[0].path] + SearchPaths(ds[1..])
    else SearchPaths(ds[1..])
  }

  /** The `-l` arguments of a list of flag pairs, in order. */
  function LibNames(ds: seq<LinkFlag>): seq<string> {
    if ds == [] then []
    else if ds[0].Lib? then [ds[0].name] + LibNames(ds[1..])
    else LibNames(ds[1..])
  }

  /** The flag pairs a token list of even length is read as. */
  function Pairs(ts: seq<string>): seq<LinkFlag>
    requires |ts| % 2 == 0
  {
    if ts == [] then []
    else [if ts[0] == "-l" then Lib(ts[1]) else Search(ts[1])] + Pairs(ts[2..])
  }

  /** Every token at an even position is `-l` or `-L`. */
  predicate FlagsAtEvenPositions(ts: seq<string>) {
    forall i :: 0 <= i < |ts| && i % 2 == 0 ==> IsFlag(ts[i])
  }

  /**
   * The token loop accepts exactly the lists whose even positions hold
   * flags and whose length is even; it reports a missing value exactly when
   * the flags are right but the last one has no argument, and a foreign flag
   * exactly when some even position holds something other than `-l`/`-L`.
   */
  lemma {:induction false} FlagsVerdict(ts: seq<string>, paths: seq<string>, links: seq<string>,
                                        whence: string, flags: string)
    ensures FlagsFrom(ts, paths, links, whence, flags).Ok?
            <==> FlagsAtEvenPositions(ts) && |ts| % 2 == 0
    ensures FlagsFrom(ts, paths, links, whence, flags) == Err(FlagWithoutValue(whence, flags))
            <==> FlagsAtEvenPositions(ts) && |ts| % 2 == 1
    ensures FlagsFrom(ts, paths, links, whence, flags) == Err(FlagNotAllowed(whence, flags))
            <==> !FlagsAtEvenPositions(ts)
    decreases |ts|
  {
    if ts != [] && IsFlag(ts[0]) && |ts| > 1 {
      var rest := ts[2..];
      if ts[0] == "-l" {
        FlagsVerdict(rest, paths, links + [ts[1]], whence, flags);
      } else {
        FlagsVerdict(rest, paths + [ts[1]], links, whence, flags);
      }
      assert forall i :: 0 <= i < |rest| ==> rest[i] == ts[i + 2];
      if !FlagsAtEvenPositions(rest) {
        var i :| 0 <= i < |rest| && i % 2 == 0 && !IsFlag(rest[i]);
        assert !IsFlag(ts[i + 2]);
      }
      if FlagsAtEvenPositions(rest) {
        forall i | 0 <= i < |ts| && i % 2 == 0
          ensures IsFlag(ts[i])
        {
          if i >= 2 {
            assert ts[i] == rest[i - 2];
          }
        }
      }
    }
  }

  /** The tokens of a list of flag pairs are read back as its paths and libraries. */
  lemma {:induction false} FlagsFromFlagTokens(ds: seq<LinkFlag>, paths: seq<string>, links: seq<string>,
                                               whence: string, flags: string)
    ensures FlagsFrom(FlagTokens(ds), paths, links, whence, flags)
            == Ok((paths + SearchPaths(ds), links + LibNames(ds)))
  {
    if ds == [] {
      assert paths + [] == paths && links + [] == links;
    } else {
      var rest := ds[1..];
      match ds[0]
      case Lib(name) =>
        calc {
          FlagsFrom(FlagTokens(ds), paths, links, whence, flags);
        == { FlagsFromPair("-l", name, FlagTokens(rest), paths, links, whence, flags); }
          FlagsFrom(FlagTokens(rest), paths, links + [name], whence, flags);
        == { FlagsFromFlagTokens(rest, paths, links + [name], whence, flags); }
          Ok((paths + SearchPaths(rest), links + [name] + LibNames(rest)));
        == { assert links + [name] + LibNames(rest) == links + ([name] + LibNames(rest)); }
          Ok((paths + SearchPaths(ds), links + LibNames(ds)));
        }
      case Search(path) =>
        calc {
          FlagsFrom(FlagTokens(ds), paths, links, whence, flags);
        == { FlagsFromPair("-L", path, FlagTokens(rest), paths, links, whence, flags); }
          FlagsFrom(FlagTokens(rest), paths + [path], links, whence, flags);
        == { FlagsFromFlagTokens(rest, paths + [path], links, whence, flags); }
          Ok((paths + [path] + SearchPaths(rest), links + LibNames(rest)));
        == { assert paths + [path] + SearchPaths(rest) == paths + ([path] + SearchPaths(rest)); }
          Ok((paths + SearchPaths(ds), links + LibNames(ds)));
        }
    }
  }

  /** One flag pair at the front of the token list. */
  lemma FlagsFromPair(flag: string, arg: string, rest: seq<string>, paths: seq<string>, links: seq<string>,
                      whence: string, flags: string)
    requires IsFlag(flag)
    ensures FlagsFrom([flag, arg] + rest, paths, links, whence, flags)
            == if flag == "-l" then FlagsFrom(rest, paths, links + [arg], whence, flags)
               else FlagsFrom(rest, paths + [arg], links, whence, flags)
  {
    var ts := [flag, arg] + rest;
    assert ts[0] == flag && ts[1] == arg && ts[2..] == rest;
  }

  /** Every accepted token list is the spelling of the flag pairs it is read as. */
  lemma {:induction false} FlagTokensOfPairs(ts: seq<string>)
    requires FlagsAtEvenPositions(ts) && |ts| % 2 == 0
    ensures FlagTokens(Pairs(ts)) == ts
    decreases |ts|
  {
    if ts != [] {
      var rest := ts[2..];
      assert forall i :: 0 <= i < |rest| ==> rest[i] == ts[i + 2];
      assert FlagsAtEvenPositions(rest) by {
        forall i | 0 <= i < |rest| && i % 2 == 0
          ensures IsFlag(rest[i])
        {
          assert rest[i] == ts[i + 2];
        }
      }
      FlagTokensOfPairs(rest);
      assert IsFlag(ts[0]);
      assert ts == [ts[0], ts[1]] + rest;
    }
  }

  /**
   * What a successful `rustc-flags` parse returns: the value's tokens are
   * `-l`/`-L` pairs, the `-L` arguments in order are the paths and the `-l`
   * arguments in order are the libraries.
   */
  lemma RustcFlagsOk(value: string, whence: string)
    requires RustcFlags(value, whence).Ok?
    ensures var ts := Tokens(Trim(value));
      |ts| % 2 == 0 && FlagsAtEvenPositions(ts)
      && FlagTokens(Pairs(ts)) == ts
      && RustcFlags(value, whence).value == (SearchPaths(Pairs(ts)), LibNames(Pairs(ts)))
  {
    var flags := Trim(value);
    var ts := Tokens(flags);
    assert |ts| % 2 == 0 && FlagsAtEvenPositions(ts) by {
      FlagsVerdict(ts, [], [], whence, flags);
    }
    assert FlagTokens(Pairs(ts)) == ts by {
      FlagTokensOfPairs(ts);
    }
    var ds := Pairs(ts);
    assert FlagsFrom(ts, [], [], whence, flags) == Ok((SearchPaths(ds), LibNames(ds))) by {
      FlagsFromFlagTokens(ds, [], [], whence, flags);
      assert [] + SearchPaths(ds) == SearchPaths(ds) && [] + LibNames(ds) == LibNames(ds);
    }
  }

  /** The arguments of a list of flag pairs, each of which must be a single word. */
  predicate WordArguments(ds: seq<LinkFlag>) {
    forall i :: 0 <= i < |ds| ==> IsWord(if ds[i].Lib? then ds[i].name else ds[i].path)
  }

  /** The tokens of flag pairs whose arguments are words are words. */
  lemma {:induction false} FlagTokensAreWords(ds: seq<LinkFlag>)
    requires WordArguments(ds)
    ensures forall i :: 0 <= i < |FlagTokens(ds)| ==> IsWord(FlagTokens(ds)[i])
  {
    if ds != [] {
      assert WordArguments(ds[1..]) by {
        forall i | 0 <= i < |ds| - 1
          ensures ds[1..][i] == ds[i + 1]
        {
        }
      }
      FlagTokensAreWords(ds[1..]);
      var ts := FlagTokens(ds);
      var rest := FlagTokens(ds[1..]);
      assert ts == [ts[0], ts[1]] + rest;
      assert IsWord(ts[0]) && IsWord(ts[1]);
      forall i | 2 <= i < |ts|
        ensures IsWord(ts[i])
      {
        assert ts[i] == rest[i - 2];
      }
    }
  }

  /**
   * Round trip: flag pairs written out space-separated, with any whitespace
   * around them, parse back to their paths and libraries.
   */
  lemma RustcFlagsRoundTrip(ds: seq<LinkFlag>, whence: string)
    requires WordArguments(ds)
    ensures RustcFlags(JoinWords(FlagTokens(ds)), whence) == Ok((SearchPaths(ds), LibNames(ds)))
  {
    var ts := FlagTokens(ds);
    var text := JoinWords(ts);
    assert Trim(text) == text && Tokens(text) == ts by {
      FlagTokensAreWords(ds);
      JoinWordsEnds(ts);
      TrimUntrimmed(text);
      TokensOfJoinWords(ts);
    }
    assert FlagsFrom(ts, [], [], whence, text) == Ok((SearchPaths(ds), LibNames(ds))) by {
      FlagsFromFlagTokens(ds, [], [], whence, text);
      assert [] + SearchPaths(ds) == SearchPaths(ds) && [] + LibNames(ds) == LibNames(ds);
    }
  }
  /**
   * `parse_rustc_flags` reads the tokens of the value itself: trimming first
   * only changes the text its error messages quote.
   */
  lemma RustcFlagsReadsTokens(value: string, whence: string)
    ensures RustcFlags(value, whence) == FlagsFrom(Tokens(value), [], [], whence, Trim(value))
  {
    TokensOfTrim(value);
  }

  /** Apart from the text an error quotes, the token loop's result depends on the tokens only. */
  lemma {:induction false} FlagsFromQuoteIrrelevant(ts: seq<string>, paths: seq<string>, links: seq<string>,
                                                  whence: string, flags1: string, flags2: string)
    ensures var r1, r2 := FlagsFrom(ts, paths, links, whence, flags1), FlagsFrom(ts, paths, links, whence, flags2);
      && r1.Ok? == r2.Ok?
      && (r1.Ok? ==> r1.value == r2.value)
      && (r1.Err? ==> r1.error.FlagNotAllowed? == r2.error.FlagNotAllowed?)
    decreases |ts|
  {
    if |ts| >= 2 && IsFlag(ts[0]) {
      if ts[0] == "-l" {
        FlagsFromQuoteIrrelevant(ts[2..], paths, links + [ts[1]], whence, flags1, flags2);
      } else {
        FlagsFromQuoteIrrelevant(ts[2..], paths + [ts[1]], links, whence, flags1, flags2);
      }
    }
  }

  /**
   * How the tokens of a `rustc-flags` value are spaced (spaces, tabs, runs
   * of them, at the ends or between) does not change what is read: values
   * with the same tokens parse alike.
   */
  lemma RustcFlagsSpacing(value1: string, value2: string, whence: string)
    requires Tokens(value1) == Tokens(value2)
    ensures var r1, r2 := RustcFlags(value1, whence), RustcFlags(value2, whence);
      && r1.Ok? == r2.Ok?
      && (r1.Ok? ==> r1.value == r2.value)
      && (r1.Err? ==> r1.error.FlagNotAllowed? == r2.error.FlagNotAllowed?)
  {
    RustcFlagsReadsTokens(value1, whence);
    RustcFlagsReadsTokens(value2, whence);
    FlagsFromQuoteIrrelevant(Tokens(value1), [], [], whence, Trim(value1), Trim(value2));
  }


  /** A `cargo:rustc-flags=` line spelling out flag pairs adds their paths and libraries. */
  lemma RustcFlagsDirective(ds: seq<LinkFlag>, whence: string)
    requires WordArguments(ds)
    ensures LineOutput(Directive("rustc-flags", JoinWords(FlagTokens(ds))), whence)
            == Ok(Empty.(libraryPaths := SearchPaths(ds), libraryLinks := LibNames(ds)))
  {
    var text := JoinWords(FlagTokens(ds));
    var line := Directive("rustc-flags", text);
    assert Classify(line) == KeyValue("rustc-flags", text) by {
      assert TrimEnd(text) == text by {
        FlagTokensAreWords(ds);
        JoinWordsEnds(FlagTokens(ds));
        TrimEndUntrimmed(text);
      }
      ClassifyDirective("rustc-flags", text);
    }
    assert RustcFlags(text, whence) == Ok((SearchPaths(ds), LibNames(ds))) by {
      RustcFlagsRoundTrip(ds, whence);
    }
    FlagsLineOutput(line, text, whence);
  }

  /** A `rustc-flags` line whose value parses adds those paths and libraries. */
  lemma FlagsLineOutput(line: string, value: string, whence: string)
    requires Classify(line) == KeyValue("rustc-flags", value)
    requires RustcFlags(value, whence).Ok?
    ensures LineOutput(line, whence)
            == Ok(Empty.(libraryPaths := RustcFlags(value, whence).value.0,
                         libraryLinks := RustcFlags(value, whence).value.1))
  {
  }

  // ---------------------------------------------------------------------------
  // What the protocol promises about lines
  // ---------------------------------------------------------------------------

  /** The line starts with `cargo:`. */
  predicate HasCargoPrefix(line: string) {
    |line| >= 6 && line[..6] == "cargo:"
  }

  /** A line is ignored exactly when it does not start with `cargo:`. */
  lemma ClassifySkipped(line: string)
    ensures Classify(line).Skipped? <==> !HasCargoPrefix(line)
  {
    if HasCargoPrefix(line) {
      CargoPrefixSplit(line);
    } else {
      var (head, data) := SplitOnce(line, ':');
      assert !(head == "cargo" && data.Some?) by {
        if head == "cargo" && data.Some? {
          CargoSplitPrefix(line);
        }
      }
    }
  }

  /** A line with the `cargo:` prefix splits at that `:`. */
  lemma CargoPrefixSplit(line: string)
    requires HasCargoPrefix(line)
    ensures SplitOnce(line, ':') == ("cargo", Some(line[6..]))
  {
    assert line == "cargo" + [':'] + line[6..];
    SplitOnceJoin("cargo", ':', line[6..]);
  }

  /** A line whose first `:` follows exactly `cargo` has the `cargo:` prefix. */
  lemma CargoSplitPrefix(line: string)
    requires SplitOnce(line, ':').0 == "cargo" && SplitOnce(line, ':').1.Some?
    ensures HasCargoPrefix(line)
  {
    var data := SplitOnce(line, ':').1.value;
    SplitOnceSpec(line, ':');
    assert line == "cargo" + [':'] + data;
    assert line[..6] == "cargo:";
  }

  /** A `cargo:` line is an error exactly when no `=` follows the prefix. */
  lemma ClassifyMalformed(line: string)
    ensures Classify(line).Malformed? <==> HasCargoPrefix(line) && '=' !in line[6..]
  {
    ClassifySkipped(line);
    if HasCargoPrefix(line) {
      CargoPrefixSplit(line);
      SplitOnceSpec(line[6..], '=');
    }
  }

  /** The line `cargo:KEY=VALUE`. */
  function Directive(key: string, value: string): string {
    "cargo:" + key + "=" + value
  }

  /**
   * A `cargo:` line is split at its first `=`: the key is everything before
   * it, untrimmed, and the value everything after it without trailing
   * whitespace.
   */
  lemma ClassifyDirective(key: string, value: string)
    requires '=' !in key
    ensures Classify(Directive(key, value)) == KeyValue(key, TrimEnd(value))
  {
    var data := key + ['='] + value;
    assert Directive(key, value) == "cargo" + [':'] + data;
    SplitOnceJoin("cargo", ':', data);
    SplitOnceJoin(key, '=', value);
  }

  /** Parsing `a + b` is parsing `a` and then, if that succeeds, `b`. */
  lemma {:induction false} ParseFromConcat(acc: BuildOutput, a: seq<string>, b: seq<string>, whence: string)
    ensures ParseFrom(acc, a + b, whence)
            == var r := ParseFrom(acc, a, whence);
               if r.Err? then r else ParseFrom(r.value, b, whence)
    decreases |a|
  {
    if a == [] {
      assert a + b == b;
    } else {
      var ab := a + b;
      assert ab[0] == a[0] && ab[1..] == a[1..] + b;
      ParseFromStep(acc, ab, whence);
      ParseFromStep(acc, a, whence);
      var r := LineOutput(a[0], whence);
      if r.Ok? {
        ParseFromConcat(Append(acc, r.value), a[1..], b, whence);
      }
    }
  }

  /** Inserting or removing a line that is not a `cargo:` line changes nothing. */
  lemma SkippedLineIgnored(acc: BuildOutput, before: seq<string>, line: string, after: seq<string>,
                           whence: string)
    requires !HasCargoPrefix(line)
    ensures ParseFrom(acc, before + [line] + after, whence) == ParseFrom(acc, before + after, whence)
  {
    assert LineOutput(line, whence) == Ok(Empty) by {
      ClassifySkipped(line);
    }
    assert before + [line] + after == before + ([line] + after);
    ParseFromConcat(acc, before, [line] + after, whence);
    ParseFromConcat(acc, before, after, whence);
    var r := ParseFrom(acc, before, whence);
    if r.Ok? {
      ParseFromCons(r.value, line, after, whence, Empty);
      AppendEmpty(r.value);
    }
  }

  lemma AppendEmpty(out: BuildOutput)
    ensures Append(out, Empty) == out
  {
    assert out.libraryPaths + [] == out.libraryPaths && out.libraryLinks + [] == out.libraryLinks;
    assert out.cfgs + [] == out.cfgs && out.metadata + [] == out.metadata;
  }

  /**
   * Parsing fails exactly when some line fails on its own, and then with
   * the error of the first such line: nothing after it is looked at.
   */
  lemma {:induction false} ParseErrorIsFirst(acc: BuildOutput, lines: seq<string>, whence: string)
    ensures ParseFrom(acc, lines, whence).Err?
            <==> exists i :: 0 <= i < |lines| && LineOutput(lines[i], whence).Err?
    ensures ParseFrom(acc, lines, whence).Err?
            ==> exists i :: 0 <= i < |lines| && LineOutput(lines[i], whence) == ParseFrom(acc, lines, whence)
                  && forall j :: 0 <= j < i ==> LineOutput(lines[j], whence).Ok?
  {
    var outs := LineOutputs(lines, whence);
    ParseFromFold(acc, lines, whence);
    FoldErrorIsFirst(acc, outs);
  }

  /** `ParseErrorIsFirst`, over the lines' own results. */
  lemma {:induction false} FoldErrorIsFirst(acc: BuildOutput, outs: seq<Result<BuildOutput, ParseError>>)
    ensures Fold(acc, outs).Err? <==> exists i :: 0 <= i < |outs| && outs[i].Err?
    ensures Fold(acc, outs).Err?
            ==> exists i :: 0 <= i < |outs| && outs[i] == Fold(acc, outs)
                  && forall j :: 0 <= j < i ==> outs[j].Ok?
    decreases |outs|
  {
    if outs != [] && outs[0].Ok? {
      var rest := outs[1..];
      var next := Append(acc, outs[0].value);
      FoldErrorIsFirst(next, rest);
      assert forall i :: 0 <= i < |rest| ==> rest[i] == outs[i + 1];
      if exists i :: 0 <= i < |outs| && outs[i].Err? {
        var i :| 0 <= i < |outs| && outs[i].Err?;
        assert rest[i - 1].Err?;
      }
      if Fold(next, rest).Err? {
        var i :| 0 <= i < |rest| && rest[i] == Fold(next, rest) && forall j :: 0 <= j < i ==> rest[j].Ok?;
        assert outs[i + 1] == Fold(acc, outs);
      }
    }
  }

  /** Every error a flag list raises names the script it came from. */
  lemma FlagsErrorWhence(ts: seq<string>, paths: seq<string>, links: seq<string>, whence: string, flags: string)
    ensures FlagsFrom(ts, paths, links, whence, flags).Err?
            ==> FlagsFrom(ts, paths, links, whence, flags).error.whence == whence
  {
    FlagsVerdict(ts, paths, links, whence, flags);
  }

  /** Every error one line raises names the script it came from. */
  lemma LineErrorWhence(line: string, whence: string)
    ensures LineOutput(line, whence).Err? ==> LineOutput(line, whence).error.whence == whence
  {
    match Classify(line)
    case Skipped =>
    case Malformed =>
    case KeyValue(key, value) =>
      if key == "rustc-flags" {
        RustcFlagsErrorWhence(value, whence);
        FlagsLineError(line, value, whence);
      }
  }

  /** A `rustc-flags` line fails exactly as its value does. */
  lemma FlagsLineError(line: string, value: string, whence: string)
    requires Classify(line) == KeyValue("rustc-flags", value)
    ensures RustcFlags(value, whence).Err? ==> LineOutput(line, whence) == Err(RustcFlags(value, whence).error)
  {
  }

  lemma RustcFlagsErrorWhence(value: string, whence: string)
    ensures RustcFlags(value, whence).Err? ==> RustcFlags(value, whence).error.whence == whence
  {
    var flags := Trim(value);
    FlagsErrorWhence(Tokens(flags), [], [], whence, flags);
  }

  /** Every error a parse raises names the script it came from. */
  lemma ParseErrorWhence(input: string, pkgName: string)
    ensures ParseText(input, pkgName).Err? ==> ParseText(input, pkgName).error.whence == Whence(pkgName)
  {
    var lines := Lines(input);
    var whence := Whence(pkgName);
    var r := ParseFrom(Empty, lines, whence);
    if r.Err? {
      var i :| 0 <= i < |lines| && LineOutput(lines[i], whence) == r by {
        ParseErrorIsFirst(Empty, lines, whence);
      }
      LineErrorWhence(lines[i], whence);
    }
  }

  // ---------------------------------------------------------------------------
  // Round trip: a record printed as directives parses back to itself
  // ---------------------------------------------------------------------------

  /** The directive lines `cargo:KEY=V`, one per value. */
  function DirectiveLines(key: string, vs: seq<string>): seq<string> {
    if vs == [] then [] else [Directive(key, vs[0])] + DirectiveLines(key, vs[1..])
  }

  /** The metadata directive lines `cargo:K=V`, one per pair. */
  function MetadataLines(kvs: seq<(string, string)>): seq<string> {
    if kvs == [] then [] else [Directive(kvs[0].0, kvs[0].1)] + MetadataLines(kvs[1..])
  }

  /** The lines a build script prints to report `out`. */
  function Render(out: BuildOutput): seq<string> {
    DirectiveLines("rustc-link-search", out.libraryPaths)
    + DirectiveLines("rustc-link-lib", out.libraryLinks)
    + DirectiveLines("rustc-cfg", out.cfgs)
    + MetadataLines(out.metadata)
  }

  /** A value that survives printing: on one line, no trailing whitespace. */
  predicate PrintableValue(v: string) {
    '\n' !in v && (v == [] || !IsWhitespace(v[|v| - 1]))
  }

  /** A metadata key that survives printing and is not one of the reserved keys. */
  predicate PrintableKey(k: string) {
    '\n' !in k && '=' !in k
    && k != "rustc-flags" && k != "rustc-link-lib" && k != "rustc-link-search" && k != "rustc-cfg"
  }

  predicate PrintableValues(vs: seq<string>) {
    forall i :: 0 <= i < |vs| ==> PrintableValue(vs[i])
  }

  predicate PrintablePairs(kvs: seq<(string, string)>) {
    forall i :: 0 <= i < |kvs| ==> PrintableKey(kvs[i].0) && PrintableValue(kvs[i].1)
  }

  /** A record every entry of which survives printing. */
  predicate Renderable(out: BuildOutput) {
    PrintableValues(out.libraryPaths) && PrintableValues(out.libraryLinks)
    && PrintableValues(out.cfgs) && PrintablePairs(out.metadata)
  }

  /**
   * What one printable directive line adds: its value to the list its key
   * names, or the pair to the metadata when the key is not reserved.
   */
  lemma DirectiveOutput(key: string, v: string, whence: string)
    requires '=' !in key && PrintableValue(v)
    ensures key == "rustc-link-search" ==> LineOutput(Directive(key, v), whence) == Ok(Empty.(libraryPaths := [v]))
    ensures key == "rustc-link-lib" ==> LineOutput(Directive(key, v), whence) == Ok(Empty.(libraryLinks := [v]))
    ensures key == "rustc-cfg" ==> LineOutput(Directive(key, v), whence) == Ok(Empty.(cfgs := [v]))
    ensures PrintableKey(key) ==> LineOutput(Directive(key, v), whence) == Ok(Empty.(metadata := [(key, v)]))
  {
    ClassifyDirective(key, v);
    TrimEndUntrimmed(v);
  }

  /** Parsing past a line that succeeds on its own. */
  lemma ParseFromCons(acc: BuildOutput, line: string, rest: seq<string>, whence: string, out: BuildOutput)
    requires LineOutput(line, whence) == Ok(out)
    ensures ParseFrom(acc, [line] + rest, whence) == ParseFrom(Append(acc, out), rest, whence)
  {
    ParseFromStep(acc, [line] + rest, whence);
    assert ([line] + rest)[1..] == rest;
  }

  /** Appending a record that holds a single entry extends that one list. */
  lemma AppendSingle(acc: BuildOutput, v: string, kv: (string, string))
    ensures Append(acc, Empty.(libraryPaths := [v])) == acc.(libraryPaths := acc.libraryPaths + [v])
    ensures Append(acc, Empty.(libraryLinks := [v])) == acc.(libraryLinks := acc.libraryLinks + [v])
    ensures Append(acc, Empty.(cfgs := [v])) == acc.(cfgs := acc.cfgs + [v])
    ensures Append(acc, Empty.(metadata := [kv])) == acc.(metadata := acc.metadata + [kv])
  {
    assert acc.libraryPaths + [] == acc.libraryPaths;
    assert acc.libraryLinks + [] == acc.libraryLinks;
    assert acc.cfgs + [] == acc.cfgs;
    assert acc.metadata + [] == acc.metadata;
  }

  lemma ConcatCons<T>(a: seq<T>, vs: seq<T>)
    requires vs != []
    ensures a + [vs[0]] + vs[1..] == a + vs
  {
    assert [vs[0]] + vs[1..] == vs;
  }

  /** The list keys: those whose directives append their value to a list. */
  predicate ListKey(key: string) {
    key == "rustc-link-search" || key == "rustc-link-lib" || key == "rustc-cfg"
  }

  /** `acc` with `vs` appended to the list that list key `key` names. */
  function Extend(acc: BuildOutput, key: string, vs: seq<string>): BuildOutput {
    if key == "rustc-link-search" then acc.(libraryPaths := acc.libraryPaths + vs)
    else if key == "rustc-link-lib" then acc.(libraryLinks := acc.libraryLinks + vs)
    else acc.(cfgs := acc.cfgs + vs)
  }

  /** One list-valued key: its lines append their values to that list, in order. */
  lemma {:induction false} DirectiveLinesParse(acc: BuildOutput, key: string, vs: seq<string>, whence: string)
    requires ListKey(key)
    requires PrintableValues(vs)
    ensures ParseFrom(acc, DirectiveLines(key, vs), whence) == Ok(Extend(acc, key, vs))
    decreases |vs|
  {
    if vs == [] {
      assert acc.libraryPaths + [] == acc.libraryPaths && acc.libraryLinks + [] == acc.libraryLinks;
      assert acc.cfgs + [] == acc.cfgs;
    } else {
      var v := vs[0];
      var rest := vs[1..];
      var out := Extend(Empty, key, [v]);
      assert PrintableValues(rest) by {
        assert forall i :: 0 <= i < |vs| - 1 ==> rest[i] == vs[i + 1];
      }
      calc {
        ParseFrom(acc, DirectiveLines(key, vs), whence);
      == { assert PrintableValue(v);
           ListDirectiveOutput(key, v, whence);
           ParseFromCons(acc, Directive(key, v), DirectiveLines(key, rest), whence, out); }
        ParseFrom(Append(acc, out), DirectiveLines(key, rest), whence);
      == { DirectiveLinesParse(Append(acc, out), key, rest, whence); }
        Ok(Extend(Append(acc, out), key, rest));
      == { ExtendStep(acc, key, vs); }
        Ok(Extend(acc, key, vs));
      }
    }
  }

  /** What one printable line of a list key adds: its value to that list. */
  lemma ListDirectiveOutput(key: string, v: string, whence: string)
    requires ListKey(key) && PrintableValue(v)
    ensures LineOutput(Directive(key, v), whence) == Ok(Extend(Empty, key, [v]))
  {
    assert [] + [v] == [v];
    DirectiveOutput(key, v, whence);
  }

  /** Appending the first value, then the rest, appends them all. */
  lemma ExtendStep(acc: BuildOutput, key: string, vs: seq<string>)
    requires ListKey(key) && vs != []
    ensures Extend(Append(acc, Extend(Empty, key, [vs[0]])), key, vs[1..]) == Extend(acc, key, vs)
  {
    AppendSingle(acc, vs[0], ("", ""));
    ConcatCons(acc.libraryPaths, vs);
    ConcatCons(acc.libraryLinks, vs);
    ConcatCons(acc.cfgs, vs);
  }

  /** Metadata lines append their pairs to the metadata, in order. */
  lemma {:induction false} MetadataLinesParse(acc: BuildOutput, kvs: seq<(string, string)>, whence: string)
    requires PrintablePairs(kvs)
    ensures ParseFrom(acc, MetadataLines(kvs), whence) == Ok(acc.(metadata := acc.metadata + kvs))
    decreases |kvs|
  {
    if kvs == [] {
      assert acc.metadata + [] == acc.metadata;
    } else {
      var (k, v) := kvs[0];
      var rest := MetadataLines(kvs[1..]);
      var out := Empty.(metadata := [(k, v)]);
      assert PrintableKey(k) && PrintableValue(v);
      DirectiveOutput(k, v, whence);
      ParseFromCons(acc, Directive(k, v), rest, whence, out);
      AppendSingle(acc, v, (k, v));
      assert PrintablePairs(kvs[1..]) by {
        assert forall i :: 0 <= i < |kvs| - 1 ==> kvs[1..][i] == kvs[i + 1];
      }
      MetadataLinesParse(Append(acc, out), kvs[1..], whence);
      ConcatCons(acc.metadata, kvs);
    }
  }

  /** No line holds a newline. */
  predicate SingleLines(ls: seq<string>) {
    forall i :: 0 <= i < |ls| ==> '\n' !in ls[i]
  }

  lemma SingleLinesConcat(a: seq<string>, b: seq<string>)
    requires SingleLines(a) && SingleLines(b)
    ensures SingleLines(a + b)
  {
    assert forall i :: |a| <= i < |a + b| ==> (a + b)[i] == b[i - |a|];
  }

  lemma {:induction false} DirectiveLinesSingle(key: string, vs: seq<string>)
    requires '\n' !in key && PrintableValues(vs)
    ensures SingleLines(DirectiveLines(key, vs))
    decreases |vs|
  {
    if vs != [] {
      assert PrintableValues(vs[1..]) by {
        assert forall i :: 0 <= i < |vs| - 1 ==> vs[1..][i] == vs[i + 1];
      }
      DirectiveLinesSingle(key, vs[1..]);
      assert '\n' !in Directive(key, vs[0]) by {
        assert PrintableValue(vs[0]);
      }
      SingleLinesConcat([Directive(key, vs[0])], DirectiveLines(key, vs[1..]));
    }
  }

  lemma {:induction false} MetadataLinesSingle(kvs: seq<(string, string)>)
    requires PrintablePairs(kvs)
    ensures SingleLines(MetadataLines(kvs))
    decreases |kvs|
  {
    if kvs != [] {
      assert PrintablePairs(kvs[1..]) by {
        assert forall i :: 0 <= i < |kvs| - 1 ==> kvs[1..][i] == kvs[i + 1];
      }
      MetadataLinesSingle(kvs[1..]);
      assert '\n' !in Directive(kvs[0].0, kvs[0].1) by {
        assert PrintableKey(kvs[0].0) && PrintableValue(kvs[0].1);
      }
      SingleLinesConcat([Directive(kvs[0].0, kvs[0].1)], MetadataLines(kvs[1..]));
    }
  }

  /** Parsing the lines of a record, one group of directives after another. */
  lemma RenderParse(out: BuildOutput, whence: string)
    requires Renderable(out)
    ensures ParseLines(Render(out), whence) == Ok(out)
  {
    var a := DirectiveLines("rustc-link-search", out.libraryPaths);
    var b := DirectiveLines("rustc-link-lib", out.libraryLinks);
    var c := DirectiveLines("rustc-cfg", out.cfgs);
    var d := MetadataLines(out.metadata);
    var o1 := Empty.(libraryPaths := out.libraryPaths);
    var o2 := o1.(libraryLinks := out.libraryLinks);
    var o3 := o2.(cfgs := out.cfgs);
    assert ParseFrom(Empty, a, whence) == Ok(o1) by {
      DirectiveLinesParse(Empty, "rustc-link-search", out.libraryPaths, whence);
      assert [] + out.libraryPaths == out.libraryPaths;
    }
    assert ParseFrom(Empty, a + b, whence) == Ok(o2) by {
      ParseFromConcat(Empty, a, b, whence);
      DirectiveLinesParse(o1, "rustc-link-lib", out.libraryLinks, whence);
      assert [] + out.libraryLinks == out.libraryLinks;
    }
    assert ParseFrom(Empty, a + b + c, whence) == Ok(o3) by {
      ParseFromConcat(Empty, a + b, c, whence);
      DirectiveLinesParse(o2, "rustc-cfg", out.cfgs, whence);
      assert [] + out.cfgs == out.cfgs;
    }
    assert ParseFrom(Empty, a + b + c + d, whence) == Ok(out) by {
      ParseFromConcat(Empty, a + b + c, d, whence);
      MetadataLinesParse(o3, out.metadata, whence);
      assert [] + out.metadata == out.metadata;
    }
  }

  lemma RenderSingleLines(out: BuildOutput)
    requires Renderable(out)
    ensures SingleLines(Render(out))
  {
    var a := DirectiveLines("rustc-link-search", out.libraryPaths);
    var b := DirectiveLines("rustc-link-lib", out.libraryLinks);
    var c := DirectiveLines("rustc-cfg", out.cfgs);
    var d := MetadataLines(out.metadata);
    DirectiveLinesSingle("rustc-link-search", out.libraryPaths);
    DirectiveLinesSingle("rustc-link-lib", out.libraryLinks);
    DirectiveLinesSingle("rustc-cfg", out.cfgs);
    MetadataLinesSingle(out.metadata);
    SingleLinesConcat(a, b);
    SingleLinesConcat(a + b, c);
    SingleLinesConcat(a + b + c, d);
  }

  /**
   * Round trip: a record whose entries are printable, printed by a script
   * as directive lines, is parsed back to the same record.
   */
  lemma RenderRoundTrip(out: BuildOutput, pkgName: string)
    requires Renderable(out)
    ensures ParseText(JoinLines(Render(out)), pkgName) == Ok(out)
  {
    RenderSingleLines(out);
    LinesOfJoinLines(Render(out));
    RenderParse(out, Whence(pkgName));
  }
}
