/** The window namer: the context text it builds for one window (process
    command lines, paths, titles, current name, and the title of an
    opencode session running there), and the slug it renames the window to.
    Every tmux, pgrep, ps and otop output is a parameter, and so is the
    reply of the naming model. */
module Name {
  import opened Results
  import opened Text
  import opened Seqs
  import opened Ordering
  import opened Otop
  import opened Tmux
  import opened Enrichment

  // ---------------------------------------------------------------------
  // The opencode session of one window

  /** The record's target names window `w` of the session. */
  predicate Matches(rec: OcRecord, sessionName: string, w: int) {
    WindowOf(rec.tmuxPane, sessionName) == Some(w)
  }

  function MatchesWindow(sessionName: string, w: int): OcRecord -> bool {
    rec => Matches(rec, sessionName, w)
  }

  /** `session.get("title", "")` of a record. */
  function Title(rec: OcRecord): string {
    rec.session.Get("title", "")
  }

  /** The title of the first record that matches, `""` when there is none
      or the first match has no title. */
  function TitleFor(records: seq<OcRecord>, sessionName: string, w: int): (r: string)
    ensures (forall j :: 0 <= j < |records| ==> !Matches(records[j], sessionName, w)) ==> r == ""
    ensures r != "" ==> exists j :: 0 <= j < |records| && Matches(records[j], sessionName, w) && r == Title(records[j])
  {
    FirstWhere(records, MatchesWindow(sessionName, w), Title, "", 0)
  }

  /** The loop of `query_opencode_for_window` over the decoded records: the
      first record whose target is window `windowIndex` of the session ends
      the search. */
  method QueryOpencodeForWindow(records: seq<OcRecord>, windowIndex: int, sessionName: string) returns (title: string)
    ensures title == TitleFor(records, sessionName, windowIndex)
  {
    ghost var p := MatchesWindow(sessionName, windowIndex);
    for i := 0 to |records|
      invariant TitleFor(records, sessionName, windowIndex) == FirstWhere(records, p, Title, "", i)
    {
      if WindowOf(records[i].tmuxPane, sessionName) == Some(windowIndex) {
        return records[i].session.Get("title", "");
      }
    }
    title := "";
  }

  /** The first match decides, even when its session has no title and a
      later match has one. */
  lemma FirstMatchWins(records: seq<OcRecord>, sessionName: string, w: int, j: int)
    requires 0 <= j < |records| && Matches(records[j], sessionName, w)
    requires forall l :: 0 <= l < j ==> !Matches(records[l], sessionName, w)
    ensures TitleFor(records, sessionName, w) == records[j].session.Get("title", "")
  {
    FirstWhereAt(records, MatchesWindow(sessionName, w), Title, "", 0, j);
  }

  /** Two records for the same window: the namer takes the first one's
      title, while the organizer's enrichment keeps the last one's session. */
  lemma FirstHereLastThere(sessionName: string, w: int, d1: SessionData, d2: SessionData)
    requires ':' !in sessionName && d1.NonEmpty() && d2.NonEmpty()
    ensures var records := [OcRecord(FormatTarget(sessionName, w, None), d1), OcRecord(FormatTarget(sessionName, w, Some(0)), d2)];
      && TitleFor(records, sessionName, w) == d1.Get("title", "")
      && w in Annotations(records, sessionName) && Annotations(records, sessionName)[w] == d2
  {
    var records := [OcRecord(FormatTarget(sessionName, w, None), d1), OcRecord(FormatTarget(sessionName, w, Some(0)), d2)];
    TargetRoundTrip(sessionName, w, None);
    TargetRoundTrip(sessionName, w, Some(0));
    LastRecordWins(records, sessionName, w, 1);
  }

  // ---------------------------------------------------------------------
  // The window context

  /** The four `list-panes` / `display-message` outputs read for a window:
      pane pids, pane paths, pane titles, and the window name. */
  datatype WindowOutputs = WindowOutputs(pids: string, paths: string, titles: string, name: string)

  predicate NonEmpty(s: string) {
    s != ""
  }

  /** What one line of the pid listing contributes: the command line of the
      pane's child process, `""` for a blank line or a pane without one. */
  function CmdlineOf(pgrep: string -> string, ps: string -> string): string -> string {
    line => var pid := Strip(line); if pid == "" then "" else GetChildCmdline(pgrep(pid), ps)
  }

  /** The command lines in pane order, empty ones dropped: the command
      lines of the pid lines at ascending positions, and every pid line
      whose command line is not empty among them. */
  function Cmdlines(pidsOut: string, pgrep: string -> string, ps: string -> string): (r: seq<string>)
    ensures forall i :: 0 <= i < |r| ==> r[i] != ""
    ensures var lines := SplitLines(Run(pidsOut));
      var cmdlines := Map(lines, CmdlineOf(pgrep, ps));
      && Picks(r, cmdlines, KeptIndices(cmdlines, NonEmpty))
      && forall i :: 0 <= i < |lines| && CmdlineOf(pgrep, ps)(lines[i]) != "" ==> i in KeptIndices(cmdlines, NonEmpty)
  {
    FilterPicks(Map(SplitLines(Run(pidsOut)), CmdlineOf(pgrep, ps)), NonEmpty);
    Filter(Map(SplitLines(Run(pidsOut)), CmdlineOf(pgrep, ps)), NonEmpty)
  }

  /** The distinct non-blank paths, stripped, in ascending order. */
  function Paths(pathsOut: string): (r: seq<string>)
    ensures StrictlySorted(r)
    ensures Elems(r) == set l | l in SplitLines(Run(pathsOut)) && Strip(l) != "" :: Strip(l)
  {
    var kept := Filter(Map(SplitLines(Run(pathsOut)), Strip), NonEmpty);
    FilterMapElems(SplitLines(Run(pathsOut)), Strip, NonEmpty);
    SortedSet(kept)
  }

  /** A stripped title worth showing: not blank and not a hostname. */
  predicate Informative(t: string, hostname: string) {
    t != "" && t !in HostnameTitles(hostname)
  }

  /** The distinct informative titles, stripped, in ascending order. */
  function Titles(titlesOut: string, hostname: string): (r: seq<string>)
    ensures StrictlySorted(r)
    ensures Elems(r) == set l | l in SplitLines(Run(titlesOut)) && Informative(Strip(l), hostname) :: Strip(l)
  {
    var keep := t => Informative(t, hostname);
    var kept := Filter(Map(SplitLines(Run(titlesOut)), Strip), keep);
    FilterMapElems(SplitLines(Run(titlesOut)), Strip, keep);
    SortedSet(kept)
  }

  /** The parts of the context, in the fixed order processes, paths,
      titles, current name, each present only when it has content. */
  function Parts(cmdlines: seq<string>, paths: seq<string>, titles: seq<string>, name: string): (r: seq<string>)
    ensures forall i :: 0 <= i < |r| ==> r[i] != ""
    ensures r == [] <==> cmdlines == [] && paths == [] && titles == [] && name == ""
  {
    var processes := With([], cmdlines != [], "processes: " + Join(cmdlines, "; "));
    var withPaths := With(processes, paths != [], "paths: " + Join(paths, "; "));
    var withTitles := With(withPaths, titles != [], "titles: " + Join(titles, "; "));
    With(withTitles, name != "", "current name: " + name)
  }

  /** `parts`, with `part` appended when it is `present`. */
  function With(parts: seq<string>, present: bool, part: string): seq<string> {
    if present then parts + [part] else parts
  }

  /** The context text of a window: its parts joined by `"; "`, empty
      exactly when all four parts are. */
  function WindowContext(cmdlines: seq<string>, paths: seq<string>, titles: seq<string>, name: string): (r: string)
    ensures r == "" <==> cmdlines == [] && paths == [] && titles == [] && name == ""
  {
    JoinEmpty(Parts(cmdlines, paths, titles, name), "; ");
    Join(Parts(cmdlines, paths, titles, name), "; ")
  }

  /** The context of the window whose outputs are `out`. */
  function ContextOf(out: WindowOutputs, pgrep: string -> string, ps: string -> string, hostname: string): string {
    WindowContext(Cmdlines(out.pids, pgrep, ps), Paths(out.paths), Titles(out.titles, hostname), Run(out.name))
  }

  /** `gather_window_context`: the pid loop collects command lines, the
      paths and titles are filtered and sorted, and the present parts are
      joined. */
  method GatherWindowContext(out: WindowOutputs, pgrep: string -> string, ps: string -> string, hostname: string)
    returns (r: string)
    ensures r == ContextOf(out, pgrep, ps, hostname)
    ensures r == "" <==> (Cmdlines(out.pids, pgrep, ps) == [] && Paths(out.paths) == []
                          && Titles(out.titles, hostname) == [] && Run(out.name) == "")
  {
    var pidLines := SplitLines(Run(out.pids));
    var cmdlines: seq<string> := [];
    for i := 0 to |pidLines|
      invariant cmdlines == Filter(Map(pidLines[..i], CmdlineOf(pgrep, ps)), NonEmpty)
    {
      FilterMapPrefix(pidLines, i, CmdlineOf(pgrep, ps), NonEmpty);
      var pid := Strip(pidLines[i]);
      if pid == "" {
        continue;
      }
      var cmdline := GetChildCmdline(pgrep(pid), ps);
      if cmdline != "" {
        cmdlines := cmdlines + [cmdline];
      }
    }
    assert pidLines[..|pidLines|] == pidLines;
    var paths := Paths(out.paths);
    var titles := Titles(out.titles, hostname);
    var windowName := Run(out.name);
    var parts: seq<string> := [];
    if cmdlines != [] {
      parts := parts + ["processes: " + Join(cmdlines, "; ")];
    }
    assert parts == With([], cmdlines != [], "processes: " + Join(cmdlines, "; "));
    ghost var processes := parts;
    if paths != [] {
      parts := parts + ["paths: " + Join(paths, "; ")];
    }
    assert parts == With(processes, paths != [], "paths: " + Join(paths, "; "));
    ghost var withPaths := parts;
    if titles != [] {
      parts := parts + ["titles: " + Join(titles, "; ")];
    }
    assert parts == With(withPaths, titles != [], "titles: " + Join(titles, "; "));
    ghost var withTitles := parts;
    if windowName != "" {
      parts := parts + ["current name: " + windowName];
    }
    assert parts == With(withTitles, windowName != "", "current name: " + windowName);
    assert parts == Parts(cmdlines, paths, titles, windowName);
    r := Join(parts, "; ");
  }

  // ---------------------------------------------------------------------
  // The slug and the run

  /** The model's output stripped, then with every space and newline
      removed. It is empty exactly for blank output, and never starts or
      ends with whitespace. */
  function Slug(output: string): (r: string)
    ensures ' ' !in r && '\n' !in r
    ensures r == "" <==> IsBlank(output)
    ensures r == "" || (!IsSpace(r[0]) && !IsSpace(r[|r| - 1]))
  {
    RemoveKeepsUnpadded(Strip(output));
    Remove(Remove(Strip(output), ' '), '\n')
  }

  /** Normalising a slug again changes nothing. */
  lemma SlugIdempotent(output: string)
    ensures Slug(Slug(output)) == Slug(output)
  {
    var slug := Slug(output);
    StripUnpadded(slug);
    assert Remove(Strip(slug), ' ') == slug;
    assert Remove(slug, '\n') == slug;
  }

  /** The slug of a reply: empty exactly for a timed-out run or blank
      output, and never holding a space or a newline. */
  function SlugOf(reply: Reply): (r: string)
    ensures reply.TimedOut? ==> r == ""
    ensures reply.Output? ==> r == Slug(reply.stdout)
    ensures r == "" <==> reply.TimedOut? || IsBlank(reply.stdout)
    ensures ' ' !in r && '\n' !in r
  {
    match reply
    case TimedOut => ""
    case Output(stdout) => Slug(stdout)
  }

  /** The opencode title for the window whose index tmux printed as
      `indexText`; `""` when `int()` rejects the index. */
  function OpencodeTitle(records: seq<OcRecord>, sessionName: string, indexText: string): (r: string)
    ensures ParseInt(indexText).None? ==> r == ""
    ensures ParseInt(indexText).Some? ==> r == TitleFor(records, sessionName, ParseInt(indexText).value)
  {
    match ParseInt(indexText)
    case None => ""
    case Some(w) => TitleFor(records, sessionName, w)
  }

  /** The text the context gains from the opencode title: nothing when
      there is no title. */
  function TitleSuffix(title: string): (r: string)
    ensures title == "" <==> r == ""
    ensures title != "" ==> |r| > |title| && r[|r| - |title|..] == title
  {
    if title != "" then "; opencode session title: " + title else ""
  }

  /** The namer's second step: the pane context, extended by the
      opencode title of the window when there is one. */
  method AddOpencodeTitle(context: string, records: seq<OcRecord>, sessionNameOut: string, indexOut: string)
    returns (r: string)
    ensures r == context + TitleSuffix(OpencodeTitle(records, Run(sessionNameOut), Run(indexOut)))
  {
    var sessionName := Run(sessionNameOut);
    var windowIndex := ParseInt(Run(indexOut));
    var opencodeTitle := "";
    if windowIndex.Some? {
      opencodeTitle := QueryOpencodeForWindow(records, windowIndex.value, sessionName);
    }
    r := context;
    if opencodeTitle != "" {
      r := r + ("; opencode session title: " + opencodeTitle);
    }
  }

  /** How a run of the namer ends. */
  datatype NameOutcome =
    | NotInSession
    | NoPaneContext
    | NamingFailed(message: string)
    | Renamed(windowId: string, slug: string, message: string)

  /** `main` of the namer: stop outside tmux and for a window without
      context; add the opencode title to the context; rename the window to
      a non-empty slug, and fail with a message otherwise. `context` is the
      text the prompt is built around. */
  method NameWindow(windowIdOut: string, out: WindowOutputs, pgrep: string -> string, ps: string -> string, hostname: string,
                    sessionNameOut: string, indexOut: string, records: seq<OcRecord>, reply: Reply)
    returns (context: string, r: NameOutcome)
    ensures Run(windowIdOut) == "" ==> r == NotInSession
    ensures Run(windowIdOut) != "" && ContextOf(out, pgrep, ps, hostname) == "" ==> r == NoPaneContext
    ensures Run(windowIdOut) != "" && ContextOf(out, pgrep, ps, hostname) != "" ==>
      && (r.NamingFailed? <==> SlugOf(reply) == "")
      && (r.NamingFailed? ==> r.message == "tname: failed for " + Run(windowIdOut))
      && (r.Renamed? <==> SlugOf(reply) != "")
    ensures r.Renamed? ==> r.windowId == Run(windowIdOut) && r.slug == SlugOf(reply) && r.message == "renamed: " + r.slug
    ensures r.NamingFailed? || r.Renamed? ==>
      context == ContextOf(out, pgrep, ps, hostname) + TitleSuffix(OpencodeTitle(records, Run(sessionNameOut), Run(indexOut)))
  {
    var windowId := Run(windowIdOut);
    if windowId == "" {
      return "", NotInSession;
    }
    context := GatherWindowContext(out, pgrep, ps, hostname);
    if context == "" {
      return "", NoPaneContext;
    }
    context := AddOpencodeTitle(context, records, sessionNameOut, indexOut);
    var slug := "";
    if reply.Output? {
      slug := Slug(reply.stdout);
    }
    if slug == "" {
      return context, NamingFailed("tname: failed for " + windowId);
    }
    r := Renamed(windowId, slug, "renamed: " + slug);
  }
}
