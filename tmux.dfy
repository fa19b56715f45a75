/** The tmux side shared by both entry points: stdout clean-up, the hostname
    titles that say nothing about a pane, the child-process lookup behind a
    pane's command line, and the parsing of `list-windows` / `list-panes`
    listings into a session snapshot. Every command's stdout is a parameter:
    `listPanes(id)` is the pane listing of window `id`, `pgrep(pid)` the
    output of `pgrep -lP pid`, `ps(pid)` that of `ps -p pid -o args=`. */
module Tmux {
  import opened Results
  import opened Text
  import opened Seqs

  datatype Pane = Pane(command: string, cmdline: string, directory: string, fullPath: string, title: string)

  datatype Window = Window(id: string, index: int, name: string, panes: seq<Pane>)

  datatype Session = Session(sessionId: string, sessionPath: string, windows: seq<Window>)

  /** The exceptions snapshot parsing lets escape: a line with the wrong
      number of tab-separated fields, or a window index `int()` rejects. */
  datatype ParseError = BadWindowLine(line: string) | BadPaneLine(line: string) | BadWindowIndex(text: string)

  // ---------------------------------------------------------------------
  // Command output

  /** What `run` returns for a command's stdout: only trailing newlines are
      removed, so leading tabs and spaces survive. */
  function Run(stdout: string): (r: string)
    ensures |r| <= |stdout| && r == stdout[..|r|]
    ensures forall i :: |r| <= i < |stdout| ==> stdout[i] == '\n'
    ensures r == [] || r[|r| - 1] != '\n'
  {
    RStripChar(stdout, '\n')
  }

  /** Output that does not hold a newline loses exactly its trailing newlines. */
  lemma RunDropsTrailer(s: string, trailer: string)
    requires '\n' !in s
    requires forall i :: 0 <= i < |trailer| ==> trailer[i] == '\n'
    ensures Run(s + trailer) == s
  {
    var t := s + trailer;
    var r := Run(t);
    if s != [] {
      assert t[|s| - 1] == s[|s| - 1] != '\n';
    }
    assert |r| >= |s|;
    assert forall i :: |s| <= i < |t| ==> t[i] == '\n';
    if r != [] {
      assert r[|r| - 1] == t[|r| - 1];
    }
    assert |r| <= |s|;
    assert r == t[..|s|] == s;
  }

  /** A tab-delimited line keeps all its fields through `run`, an empty
      first field (a pane without a title) included. */
  lemma RunKeepsFields(fields: seq<string>, trailer: string)
    requires |fields| >= 2
    requires forall i :: 0 <= i < |fields| ==> '\t' !in fields[i] && '\n' !in fields[i]
    requires forall i :: 0 <= i < |trailer| ==> trailer[i] == '\n'
    ensures Split(Run(Join(fields, "\t") + trailer), '\t') == fields
  {
    JoinAvoids(fields, "\t", '\n');
    RunDropsTrailer(Join(fields, "\t"), trailer);
    JoinSplit(fields, '\t');
  }

  lemma RStripNewline(body: string)
    requires body != [] && !IsSpace(body[|body| - 1])
    ensures RStrip(body + "\n") == body
  {
    var line := body + "\n";
    assert line[..|line| - 1] == body;
  }

  lemma LStripTab(u: string)
    requires u != [] && !IsSpace(u[0])
    ensures LStrip("\t" + u) == u
  {
    assert ("\t" + u)[1..] == u;
  }

  /** `strip()` removes a leading tab along with the trailing newline. */
  lemma StripTabbedLine(u: string)
    requires u != [] && !IsSpace(u[0]) && !IsSpace(u[|u| - 1])
    ensures Strip("\t" + u + "\n") == u
  {
    assert ("\t" + u)[|"\t" + u| - 1] == u[|u| - 1];
    RStripNewline("\t" + u);
    LStripTab(u);
  }

  /** With `strip()` in place of `rstrip("\n")`, a pane line whose title is
      empty would lose its first field and no longer split into four. */
  lemma StripLosesEmptyTitle()
    ensures |Split(Run("\tzsh\t/srv\t42\n"), '\t')| == 4
    ensures |Split(Strip("\tzsh\t/srv\t42\n"), '\t')| == 3
  {
    RunKeepsUntitled();
    StripDropsUntitled();
  }

  lemma RunKeepsUntitled()
    ensures Split(Run("\tzsh\t/srv\t42\n"), '\t') == ["", "zsh", "/srv", "42"]
  {
    var fields := ["", "zsh", "/srv", "42"];
    assert Join(fields, "\t") + "\n" == "\tzsh\t/srv\t42\n";
    RunKeepsFields(fields, "\n");
  }

  lemma StripDropsUntitled()
    ensures Split(Strip("\tzsh\t/srv\t42\n"), '\t') == ["zsh", "/srv", "42"]
  {
    StripUntitledLine();
    SplitTitledFields();
  }

  lemma StripUntitledLine()
    ensures Strip("\tzsh\t/srv\t42\n") == "zsh\t/srv\t42"
  {
    var u := "zsh\t/srv\t42";
    assert "\tzsh\t/srv\t42\n" == "\t" + u + "\n";
    StripTabbedLine(u);
  }

  lemma SplitTitledFields()
    ensures Split("zsh\t/srv\t42", '\t') == ["zsh", "/srv", "42"]
  {
    var rest := ["zsh", "/srv", "42"];
    assert Join(rest[2..], "\t") == "42";
    assert Join(rest[1..], "\t") == "/srv\t42";
    assert Join(rest, "\t") == "zsh\t/srv\t42";
    JoinSplit(rest, '\t');
  }

  // ---------------------------------------------------------------------
  // Titles and paths

  /** The full hostname and its part before the first `.`. */
  function HostnameTitles(hostname: string): (r: set<string>)
    ensures hostname in r && hostname[..IndexOf(hostname, '.')] in r
    ensures forall t :: t in r ==> t <= hostname && (|t| == |hostname| || hostname[|t|] == '.')
    ensures '.' !in hostname ==> r == {hostname}
  {
    {hostname, Split(hostname, '.')[0]}
  }

  /** The title kept for a pane: a hostname variant says nothing and is
      blanked, any other title is kept as it is. */
  function ShownTitle(title: string, hostname: string): (r: string)
    ensures r == "" || r == title
    ensures r == title <==> title !in HostnameTitles(hostname) || title == ""
  {
    if title in HostnameTitles(hostname) then "" else title
  }

  /** `os.path.basename`: the part of `path` after its last `/`. */
  function Basename(path: string): (r: string)
    ensures '/' !in r
    ensures |r| <= |path| && path[|path| - |r|..] == r
    ensures |r| < |path| ==> path[|path| - |r| - 1] == '/'
    decreases |path|
  {
    if path == [] || path[|path| - 1] == '/' then []
    else
      var init := path[..|path| - 1];
      BasenameStep(path, Basename(init));
      Basename(init) + [path[|path| - 1]]
  }

  /** The basename of a path not ending in `/` is the basename of the path
      without its last character, followed by that character. */
  lemma BasenameStep(path: string, b: string)
    requires path != [] && path[|path| - 1] != '/'
    requires '/' !in b && |b| <= |path| - 1 && path[..|path| - 1][|path| - 1 - |b|..] == b
    requires |b| < |path| - 1 ==> path[..|path| - 1][|path| - 2 - |b|] == '/'
    ensures var r := b + [path[|path| - 1]];
      && '/' !in r && |r| <= |path| && path[|path| - |r|..] == r
      && (|r| < |path| ==> path[|path| - |r| - 1] == '/')
  {
    var init := path[..|path| - 1];
    assert path == init + [path[|path| - 1]];
    assert path[|path| - |b| - 1..] == init[|init| - |b|..] + [path[|path| - 1]];
  }

  // ---------------------------------------------------------------------
  // Child process lookup

  lemma LineBreakIsSpace(c: char)
    requires IsLineBreak(c)
    ensures IsSpace(c)
  {
  }

  /** Text that starts with a non-space character is its own `lstrip()`. */
  lemma LStripUnpadded(t: string)
    requires t == [] || !IsSpace(t[0])
    ensures LStrip(t) == t
  {
  }

  /** Cutting text anywhere after its first whitespace keeps that position. */
  lemma SpaceIndexPrefix(s: string, k: nat)
    requires SpaceIndex(s) <= k <= |s|
    ensures SpaceIndex(s[..k]) == SpaceIndex(s)
  {
    var p := s[..k];
    forall i | 0 <= i < SpaceIndex(s) ensures !IsSpace(p[i]) { assert p[i] == s[i]; }
    if SpaceIndex(s) < k { assert p[SpaceIndex(s)] == s[SpaceIndex(s)]; }
  }

  /** Every line break is whitespace, so the first word ends no later
      than the first line. */
  lemma WordWithinLine(s: string)
    ensures SpaceIndex(s) <= LineEnd(s)
  {
    if LineEnd(s) < |s| { LineBreakIsSpace(s[LineEnd(s)]); }
  }

  /** Text that starts with a non-space character holds a word, and its
      first word is its whitespace-free prefix. */
  lemma FirstWord(t: string)
    requires t != [] && !IsSpace(t[0])
    ensures !IsBlank(t) && SplitWhitespace(t)[0] == t[..SpaceIndex(t)]
  {
    LStripUnpadded(t);
  }

  lemma FirstLine(s: string)
    requires s != [] && !IsSpace(s[0])
    ensures SplitLines(s) != [] && SplitLines(s)[0] == s[..LineEnd(s)]
    ensures 0 < SpaceIndex(s) <= LineEnd(s)
  {
    WordWithinLine(s);
  }

  lemma PrefixWord(s: string, k: nat)
    requires 0 < SpaceIndex(s) <= k <= |s|
    ensures !IsBlank(s[..k]) && SplitWhitespace(s[..k])[0] == s[..SpaceIndex(s)]
  {
    var first := s[..k];
    assert first[0] == s[0];
    FirstWord(first);
    SpaceIndexPrefix(s, k);
    PrefixOfPrefix(s, k, SpaceIndex(s));
  }

  lemma PrefixOfPrefix(s: string, k: nat, n: nat)
    requires n <= k <= |s|
    ensures s[..k][..n] == s[..n]
  {
  }

  /** The first line of text that starts with a non-space character holds
      a word, and its first word is the text's first word. */
  lemma FirstLineWord(s: string)
    requires s != [] && !IsSpace(s[0])
    ensures SplitLines(s) != [] && !IsBlank(SplitLines(s)[0])
    ensures SplitWhitespace(SplitLines(s)[0])[0] == s[..SpaceIndex(s)]
  {
    FirstLine(s);
    PrefixWord(s, |SplitLines(s)[0]|);
  }

  /** The child pid in `pgrep -lP` output: the first whitespace-separated
      word of its first line. There is one exactly when the output is not
      blank, and it is the stripped output's first word, so the `IndexError`
      the source guards against cannot occur. */
  function ChildPid(pgrepOut: string): (r: Option<string>)
    ensures r.Some? <==> !IsBlank(pgrepOut)
    ensures r.Some? ==> IsToken(r.value) && r.value == Strip(pgrepOut)[..SpaceIndex(Strip(pgrepOut))]
  {
    var s := Strip(pgrepOut);
    if s == "" then None
    else
      FirstLineWord(s);
      var first := SplitLines(s)[0];
      if first == "" then None
      else
        var words := SplitWhitespace(first);
        if words == [] then None else Some(words[0])
  }

  /** `get_child_cmdline`: the stripped `ps` output for the child pid, or
      `""` when `pgrep` lists no child. */
  function GetChildCmdline(pgrepOut: string, ps: string -> string): (r: string)
    ensures IsBlank(pgrepOut) ==> r == ""
    ensures !IsBlank(pgrepOut) ==> r == Strip(ps(ChildPid(pgrepOut).value))
  {
    match ChildPid(pgrepOut)
    case None => ""
    case Some(pid) => Strip(ps(pid))
  }

  // ---------------------------------------------------------------------
  // Snapshot parsing

  predicate NotBlank(line: string) {
    !IsBlank(line)
  }

  /** The lines of a listing that are not blank, in listing order: the
      lines at the ascending positions of the non-blank ones, and every
      non-blank position among them. */
  function Listing(stdout: string): (r: seq<string>)
    ensures forall i :: 0 <= i < |r| ==> !IsBlank(r[i])
    ensures var lines := SplitLines(Run(stdout));
      && Picks(r, lines, KeptIndices(lines, NotBlank))
      && forall i :: 0 <= i < |lines| && !IsBlank(lines[i]) ==> i in KeptIndices(lines, NotBlank)
  {
    FilterPicks(SplitLines(Run(stdout)), NotBlank);
    Filter(SplitLines(Run(stdout)), NotBlank)
  }

  /** One `#{pane_title}\t#{pane_current_command}\t#{pane_current_path}\t#{pane_pid}`
      line: exactly four fields or the line is rejected. */
  function ParsePaneLine(line: string, pgrep: string -> string, ps: string -> string, hostname: string): (r: Result<Pane, ParseError>)
    ensures r.Ok? <==> |Split(line, '\t')| == 4
    ensures r.Err? ==> r.error == BadPaneLine(line)
  {
    var f := Split(line, '\t');
    if |f| != 4 then Err(BadPaneLine(line))
    else
      var title, command, fullPath, pid := f[0], f[1], f[2], f[3];
      Ok(Pane(command, GetChildCmdline(pgrep(pid), ps), Basename(fullPath), fullPath, ShownTitle(title, hostname)))
  }

  function PaneParser(pgrep: string -> string, ps: string -> string, hostname: string): string -> Result<Pane, ParseError> {
    line => ParsePaneLine(line, pgrep, ps, hostname)
  }

  /** The panes of one window's listing, or the first bad line's error. */
  function Panes(stdout: string, pgrep: string -> string, ps: string -> string, hostname: string): Result<seq<Pane>, ParseError> {
    MapResult(Listing(stdout), PaneParser(pgrep, ps, hostname))
  }

  /** One `#{window_id}\t#{window_index}\t#{window_name}` line. The field
      count is checked first, then the window's panes are read, and only
      then is the index converted, so a bad pane line wins over a bad
      index. */
  function ParseWindowLine(line: string, listPanes: string -> string, pgrep: string -> string, ps: string -> string, hostname: string): (r: Result<Window, ParseError>)
    ensures |Split(line, '\t')| != 3 ==> r == Err(BadWindowLine(line))
    ensures r.Ok? ==> var f := Split(line, '\t');
      && Panes(listPanes(f[0]), pgrep, ps, hostname) == Ok(r.value.panes)
      && ParseInt(f[1]) == Some(r.value.index)
  {
    var f := Split(line, '\t');
    if |f| != 3 then Err(BadWindowLine(line))
    else
      var id, indexText, name := f[0], f[1], f[2];
      match Panes(listPanes(id), pgrep, ps, hostname)
      case Err(e) => Err(e)
      case Ok(panes) =>
        match ParseInt(indexText)
        case None => Err(BadWindowIndex(indexText))
        case Some(index) => Ok(Window(id, index, name, panes))
  }

  function WindowParser(listPanes: string -> string, pgrep: string -> string, ps: string -> string, hostname: string): string -> Result<Window, ParseError> {
    line => ParseWindowLine(line, listPanes, pgrep, ps, hostname)
  }

  /** The snapshot `gather_session_context` builds from the window listing,
      the per-window pane listings and the session path. */
  function SessionContext(sessionId: string, windowsOut: string, listPanes: string -> string, pgrep: string -> string, ps: string -> string, pathOut: string, hostname: string): Result<Session, ParseError> {
    match MapResult(Listing(windowsOut), WindowParser(listPanes, pgrep, ps, hostname))
    case Err(e) => Err(e)
    case Ok(windows) => Ok(Session(sessionId, Run(pathOut), windows))
  }

  /** A pane line as tmux prints it reads back field by field: the title
      blanked when it is a hostname, the directory the basename of the path. */
  lemma PaneLineFields(title: string, command: string, path: string, pid: string, pgrep: string -> string, ps: string -> string, hostname: string)
    requires '\t' !in title && '\t' !in command && '\t' !in path && '\t' !in pid
    ensures ParsePaneLine(Join([title, command, path, pid], "\t"), pgrep, ps, hostname)
         == Ok(Pane(command, GetChildCmdline(pgrep(pid), ps), Basename(path), path, ShownTitle(title, hostname)))
  {
    FourFields(title, command, path, pid);
  }

  lemma FourFields(title: string, command: string, path: string, pid: string)
    requires '\t' !in title && '\t' !in command && '\t' !in path && '\t' !in pid
    ensures Split(Join([title, command, path, pid], "\t"), '\t') == [title, command, path, pid]
  {
    assert "\t" == ['\t'];
    JoinSplit([title, command, path, pid], '\t');
  }

  /** A window line as tmux prints it reads back with its id, index and
      name, and with the panes of that window's listing. */
  lemma WindowLineFields(id: string, index: int, name: string, listPanes: string -> string, pgrep: string -> string, ps: string -> string, hostname: string)
    requires '\t' !in id && '\t' !in name
    requires Panes(listPanes(id), pgrep, ps, hostname).Ok?
    ensures ParseWindowLine(Join([id, IntToString(index), name], "\t"), listPanes, pgrep, ps, hostname)
         == Ok(Window(id, index, name, Panes(listPanes(id), pgrep, ps, hostname).value))
  {
    var digits := IntToString(index);
    NoTabInNumber(index);
    assert "\t" == ['\t'];
    JoinSplit([id, digits, name], '\t');
    IntToStringParses(index);
  }

  lemma NoTabInNumber(n: int)
    ensures '\t' !in IntToString(n)
  {
    var d := NatToString(if n < 0 then -n else n);
    assert AllDigits(d);
    assert n < 0 ==> IntToString(n) == "-" + d;
  }

  // ---------------------------------------------------------------------
  // The listing loops

  /** The pane loop of `gather_session_context` over one window's listing. */
  method GatherPanes(stdout: string, pgrep: string -> string, ps: string -> string, hostname: string)
    returns (r: Result<seq<Pane>, ParseError>)
    ensures r == Panes(stdout, pgrep, ps, hostname)
  {
    var lines := SplitLines(Run(stdout));
    var f := PaneParser(pgrep, ps, hostname);
    var panes: seq<Pane> := [];
    var i := 0;
    while i < |lines|
      invariant 0 <= i <= |lines|
      invariant MapResult(Filter(lines[..i], NotBlank), f) == Ok(panes)
    {
      var line := lines[i];
      FilteredStep(lines, i, NotBlank, f);
      if IsBlank(line) {
        i := i + 1;
        continue;
      }
      assert f(line) == ParsePaneLine(line, pgrep, ps, hostname);
      var fields := Split(line, '\t');
      if |fields| != 4 {
        FilteredAbort(lines, i + 1, NotBlank, f);
        return Err(BadPaneLine(line));
      }
      var title, command, fullPath, pid := fields[0], fields[1], fields[2], fields[3];
      var shown := ShownTitle(title, hostname);
      var cmdline := GetChildCmdline(pgrep(pid), ps);
      var directory := Basename(fullPath);
      panes := panes + [Pane(command, cmdline, directory, fullPath, shown)];
      i := i + 1;
    }
    assert lines[..i] == lines;
    r := Ok(panes);
  }

  /** `gather_session_context`: one window per non-blank line of the window
      listing, in listing order, each with the panes of its own listing; the
      first malformed line aborts the whole snapshot with its error. */
  method GatherSessionContext(sessionId: string, windowsOut: string, listPanes: string -> string,
                              pgrep: string -> string, ps: string -> string, pathOut: string, hostname: string)
    returns (r: Result<Session, ParseError>)
    ensures r == SessionContext(sessionId, windowsOut, listPanes, pgrep, ps, pathOut, hostname)
  {
    var lines := SplitLines(Run(windowsOut));
    var f := WindowParser(listPanes, pgrep, ps, hostname);
    var windows: seq<Window> := [];
    var i := 0;
    while i < |lines|
      invariant 0 <= i <= |lines|
      invariant MapResult(Filter(lines[..i], NotBlank), f) == Ok(windows)
    {
      var line := lines[i];
      FilteredStep(lines, i, NotBlank, f);
      if IsBlank(line) {
        i := i + 1;
        continue;
      }
      assert f(line) == ParseWindowLine(line, listPanes, pgrep, ps, hostname);
      var fields := Split(line, '\t');
      if |fields| != 3 {
        FilteredAbort(lines, i + 1, NotBlank, f);
        return Err(BadWindowLine(line));
      }
      var id, indexText, name := fields[0], fields[1], fields[2];
      var panes := GatherPanes(listPanes(id), pgrep, ps, hostname);
      if panes.Err? {
        FilteredAbort(lines, i + 1, NotBlank, f);
        return Err(panes.error);
      }
      var index := ParseInt(indexText);
      if index.None? {
        FilteredAbort(lines, i + 1, NotBlank, f);
        return Err(BadWindowIndex(indexText));
      }
      windows := windows + [Window(id, index.value, name, panes.value)];
      i := i + 1;
    }
    assert lines[..i] == lines;
    var sessionPath := Run(pathOut);
    r := Ok(Session(sessionId, sessionPath, windows));
  }

  /** What a snapshot holds: one window per non-blank line of the window
      listing, in listing order, each the reading of its line; a failed
      snapshot carries the error of the first line that does not read. */
  lemma SessionContextShape(sessionId: string, windowsOut: string, listPanes: string -> string,
                            pgrep: string -> string, ps: string -> string, pathOut: string, hostname: string)
    ensures var r := SessionContext(sessionId, windowsOut, listPanes, pgrep, ps, pathOut, hostname);
      var lines := Listing(windowsOut);
      && (r.Ok? ==>
        && r.value.sessionId == sessionId && r.value.sessionPath == Run(pathOut)
        && |r.value.windows| == |lines|
        && forall i :: 0 <= i < |lines| ==> ParseWindowLine(lines[i], listPanes, pgrep, ps, hostname) == Ok(r.value.windows[i]))
      && (r.Err? ==> exists i :: 0 <= i < |lines| && ParseWindowLine(lines[i], listPanes, pgrep, ps, hostname) == Err(r.error))
  {
    var lines := Listing(windowsOut);
    var f := WindowParser(listPanes, pgrep, ps, hostname);
    var k := FirstFailure(lines, f);
    if k < |lines| {
      assert f(lines[k]) == ParseWindowLine(lines[k], listPanes, pgrep, ps, hostname);
    } else {
      forall i | 0 <= i < |lines| ensures f(lines[i]) == ParseWindowLine(lines[i], listPanes, pgrep, ps, hostname) { }
    }
  }
}
