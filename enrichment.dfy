/** `build_opencode_context`: the enrichment text that tells the model which
    windows run an opencode session and what each session is about. The
    session name (`#S`) is a parameter. */
module Enrichment {
  import opened Results
  import opened Text
  import opened Seqs
  import opened Otop
  import opened Ordering

  /** A record annotates window `w` when its target names window `w` of
      this session and its session data is not empty. */
  predicate Annotates(rec: OcRecord, sessionName: string, w: int) {
    WindowOf(rec.tmuxPane, sessionName) == Some(w) && rec.session.NonEmpty()
  }

  /** What a record puts in the `window_sessions` dict, if anything. */
  function Entry(rec: OcRecord, sessionName: string): (e: Option<(int, SessionData)>)
    ensures forall w :: HasKey(e, w) <==> Annotates(rec, sessionName, w)
    ensures e.Some? ==> e.value.1 == rec.session
  {
    match WindowOf(rec.tmuxPane, sessionName)
    case None => None
    case Some(w) => if rec.session.NonEmpty() then Some((w, rec.session)) else None
  }

  function EntryFor(sessionName: string): OcRecord -> Option<(int, SessionData)> {
    rec => Entry(rec, sessionName)
  }

  /** The `window_sessions` dict after reading `records` in order: each
      annotating record overwrites what an earlier one left for its window. */
  function Annotations(records: seq<OcRecord>, sessionName: string): map<int, SessionData> {
    Collect(records, EntryFor(sessionName))
  }

  /** A window is annotated exactly when some record annotates it. */
  lemma Annotated(records: seq<OcRecord>, sessionName: string, w: int)
    ensures w in Annotations(records, sessionName) <==> exists j :: 0 <= j < |records| && Annotates(records[j], sessionName, w)
  {
    var entry := EntryFor(sessionName);
    CollectHasKey(records, entry, w);
    assert forall j :: 0 <= j < |records| ==> (HasKey(entry(records[j]), w) <==> Annotates(records[j], sessionName, w));
  }

  /** An annotated window carries the session data of the last record that
      annotates it. */
  lemma LastRecordWins(records: seq<OcRecord>, sessionName: string, w: int, j: int)
    requires 0 <= j < |records| && Annotates(records[j], sessionName, w)
    requires forall l :: j < l < |records| ==> !Annotates(records[l], sessionName, w)
    ensures w in Annotations(records, sessionName) && Annotations(records, sessionName)[w] == records[j].session
  {
    var entry := EntryFor(sessionName);
    assert forall l :: 0 <= l < |records| ==> (HasKey(entry(records[l]), w) <==> Annotates(records[l], sessionName, w));
    CollectLastWins(records, entry, w, j);
  }

  /** A window's line, with `untitled`, `unknown`, 0 and `?` for missing
      title, status, message count and model. */
  function Line(w: int, d: SessionData): string {
    "window " + IntToString(w) + " has opencode session: \"" + d.Get("title", "untitled") + "\" ("
      + d.Get("status", "unknown") + ", " + IntToString(d.messageCount.GetOr(0)) + " messages, model: "
      + d.Get("model", "?") + ")"
  }

  lemma LineNotEmpty(w: int, d: SessionData)
    ensures Line(w, d) != ""
  {
    assert Line(w, d)[0] == 'w';
  }

  /** The lines of a window map, in ascending window order, joined by
      newlines. */
  ghost function Render(m: map<int, SessionData>): string {
    Join(MapEntries(SortedInts(m.Keys), m, Line), "\n")
  }

  /** The enrichment text: one line per annotated window in ascending window
      order, joined by newlines; empty when there are no records or no
      window is annotated. */
  ghost function Context(records: seq<OcRecord>, sessionName: string): string {
    if records == [] then ""
    else
      var m := Annotations(records, sessionName);
      if |m| == 0 then "" else Render(m)
  }

  /** `build_opencode_context`: fills the window map record by record, then
      emits the lines by ascending window index. */
  method BuildOpencodeContext(records: seq<OcRecord>, sessionName: string) returns (r: string)
    ensures r == Context(records, sessionName)
  {
    if records == [] {
      return "";
    }
    var windowSessions: map<int, SessionData> := map[];
    for i := 0 to |records|
      invariant windowSessions == Annotations(records[..i], sessionName)
    {
      var rec := records[i];
      CollectPrefix(records, i, EntryFor(sessionName));
      var window := WindowOf(rec.tmuxPane, sessionName);
      if window.Some? && rec.session.NonEmpty() {
        windowSessions := windowSessions[window.value := rec.session];
      }
    }
    assert records[..|records|] == records;
    if |windowSessions| == 0 {
      return "";
    }
    r := RenderSorted(windowSessions, Line);
  }

  /** The `sorted(window_sessions.items())` loop: the windows in ascending
      order, each rendered by `line`, joined by newlines. */
  method RenderSorted<V>(windowSessions: map<int, V>, line: (int, V) -> string) returns (r: string)
    ensures r == Join(MapEntries(SortedInts(windowSessions.Keys), windowSessions, line), "\n")
  {
    var keys := SortedKeys(windowSessions.Keys);
    var lines := RenderLines(keys, windowSessions, line);
    r := Join(lines, "\n");
  }

  /** The loop body of the rendering: one line per window, in the order
      given. */
  method RenderLines<V>(keys: seq<int>, windowSessions: map<int, V>, line: (int, V) -> string) returns (lines: seq<string>)
    requires forall j :: 0 <= j < |keys| ==> keys[j] in windowSessions
    ensures lines == MapEntries(keys, windowSessions, line)
  {
    lines := [];
    for i := 0 to |keys|
      invariant lines == MapEntries(keys[..i], windowSessions, line)
    {
      assert keys[..i + 1] == keys[..i] + [keys[i]];
      MapEntriesSnoc(keys[..i], keys[i], windowSessions, line);
      lines := lines + [line(keys[i], windowSessions[keys[i]])];
    }
    assert keys[..|keys|] == keys;
  }

  /** `sorted` on the window indices: takes the smallest index left each
      time. */
  method SortedKeys(s: set<int>) returns (keys: seq<int>)
    ensures keys == SortedInts(s)
  {
    keys := [];
    var remaining := s;
    while remaining != {}
      invariant SortedInts(s) == keys + SortedInts(remaining)
      decreases |remaining|
    {
      MinExists(remaining);
      var w :| IsMin(w, remaining);
      SortedIntsHead(remaining, w);
      AppendAssoc(keys, [w], SortedInts(remaining - {w}));
      keys := keys + [w];
      remaining := remaining - {w};
    }
  }

  /** The rendering of a window map is empty only for the empty map: every
      line starts with `window`. */
  lemma RenderEmptyIff(m: map<int, SessionData>)
    ensures Render(m) == "" <==> |m| == 0
  {
    var keys := SortedInts(m.Keys);
    var lines := MapEntries(keys, m, Line);
    assert |lines| == |keys| == |m.Keys| == |m|;
    if lines != [] {
      LineNotEmpty(keys[0], m[keys[0]]);
      JoinNonEmpty(lines, "\n");
    }
  }

  /** The enrichment text is empty exactly when no record annotates any
      window: each record is skipped for a bad or foreign target or has
      empty session data. */
  lemma ContextEmptyIff(records: seq<OcRecord>, sessionName: string)
    ensures Context(records, sessionName) == "" <==>
      forall j :: 0 <= j < |records| ==> WindowOf(records[j].tmuxPane, sessionName).None? || !records[j].session.NonEmpty()
  {
    var m := Annotations(records, sessionName);
    RenderEmptyIff(m);
    if exists j :: 0 <= j < |records| && WindowOf(records[j].tmuxPane, sessionName).Some? && records[j].session.NonEmpty() {
      var j :| 0 <= j < |records| && WindowOf(records[j].tmuxPane, sessionName).Some? && records[j].session.NonEmpty();
      var w := WindowOf(records[j].tmuxPane, sessionName).value;
      Annotated(records, sessionName, w);
      assert Annotates(records[j], sessionName, w);
      assert w in m;
    } else {
      forall w | w in m ensures false {
        Annotated(records, sessionName, w);
      }
      assert |m| == 0;
    }
  }
}
