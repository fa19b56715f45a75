/** The opencode side shared by both entry points (the session organizer
    and the window namer): records reported by `otop sessions`, the
    `session:window.pane` targets in them, and what `opencode run` returns. */
module Otop {
  import opened Results
  import opened Text

  /** The `session` object of a record. `fields` holds the text of every key
      other than `message_count`; `messageCount` is that key's integer. An
      absent or null `session` is the empty object. */
  datatype SessionData = SessionData(fields: map<string, string>, messageCount: Option<int>)
  {
    /** A Python dict is truthy when it has at least one key. */
    predicate NonEmpty() {
      |fields| > 0 || messageCount.Some?
    }

    /** `session.get(key, default)` for a textual key. */
    function Get(key: string, default: string): (r: string)
      ensures key in fields ==> r == fields[key]
      ensures key !in fields ==> r == default
    {
      if key in fields then fields[key] else default
    }
  }

  /** One record; an absent or null `tmux_pane` is the empty target. */
  datatype OcRecord = OcRecord(tmuxPane: string, session: SessionData)

  /** What `opencode run` gave back: it ran past its 120-second timeout, or
      it finished with this standard output. */
  datatype Reply = TimedOut | Output(stdout: string)

  /** `"name:window"` or `"name:window.pane"`, as otop prints a pane target. */
  function FormatTarget(sessionName: string, window: int, pane: Option<int>): string {
    sessionName + ":" + IntToString(window) + (if pane.Some? then "." + IntToString(pane.value) else "")
  }

  /** The window index a pane target names, when the target belongs to the
      session `sessionName`. Empty targets, targets without `:`, targets of
      another session and window parts (the text before the first `.`) that
      `int()` rejects all give `None`. */
  function WindowOf(target: string, sessionName: string): (r: Option<int>)
    ensures r.Some? ==> ':' in target && target[..IndexOf(target, ':')] == sessionName
  {
    if target == "" || ':' !in target then None
    else
      var k := IndexOf(target, ':');
      var targetSession := target[..k];
      var rest := target[k + 1..];
      if targetSession != sessionName then None
      else
        var windowPart := if '.' in rest then Split(rest, '.')[0] else rest;
        ParseInt(windowPart)
  }

  lemma IntToStringPlain(n: int)
    ensures '.' !in IntToString(n) && ':' !in IntToString(n)
  {
    var d := NatToString(if n < 0 then -n else n);
    assert AllDigits(d);
    assert IsDigit('.') == false && IsDigit(':') == false;
    if n < 0 {
      assert IntToString(n) == "-" + d;
    }
  }

  /** Within the session, only the text between the `:` and the first `.`
      is read. */
  lemma OwnTarget(sessionName: string, rest: string)
    requires ':' !in sessionName
    ensures WindowOf(sessionName + ":" + rest, sessionName) == ParseInt(rest[..IndexOf(rest, '.')])
  {
    var target := sessionName + ":" + rest;
    IndexOfAfter(sessionName, ':', rest);
    assert target[..|sessionName|] == sessionName;
    assert target[|sessionName| + 1..] == rest;
    assert '.' !in rest ==> rest[..IndexOf(rest, '.')] == rest;
  }

  lemma WindowPart(w: string, suffix: string)
    requires '.' !in w
    requires suffix == [] || suffix[0] == '.'
    ensures (w + suffix)[..IndexOf(w + suffix, '.')] == w
  {
    if suffix == [] {
      assert w + suffix == w;
    } else {
      IndexOfAfter(w, '.', suffix[1..]);
      assert w + suffix == w + ['.'] + suffix[1..];
    }
  }

  /** Every target otop prints for a window of this session reads back as
      that window, with or without a pane part. */
  lemma TargetRoundTrip(sessionName: string, window: int, pane: Option<int>)
    requires ':' !in sessionName
    ensures WindowOf(FormatTarget(sessionName, window, pane), sessionName) == Some(window)
  {
    var w := IntToString(window);
    var suffix := if pane.Some? then "." + IntToString(pane.value) else "";
    assert FormatTarget(sessionName, window, pane) == sessionName + ":" + (w + suffix);
    IntToStringPlain(window);
    WindowPart(w, suffix);
    OwnTarget(sessionName, w + suffix);
    IntToStringParses(window);
  }

  /** A target of another session never matches, whatever follows the `:`. */
  lemma ForeignTarget(sessionName: string, other: string, rest: string)
    requires ':' !in other && other != sessionName
    ensures WindowOf(other + ":" + rest, sessionName) == None
  {
    IndexOfAfter(other, ':', rest);
    assert (other + ":" + rest)[..|other|] == other;
  }
}
