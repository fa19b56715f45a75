/** `extract_json_from_output`: the first complete JSON object in the
    model's output, found by counting braces from the first `{`. Decoding
    the object text (`json.loads`) is a parameter that gives `None` where
    Python raises `JSONDecodeError`. */
module ExtractJson {
  import opened Results
  import opened Text

  /** What one character does to the brace depth. */
  function Step(c: char): int {
    if c == '{' then 1 else if c == '}' then -1 else 0
  }

  /** Brace depth after reading `s` from depth 0; braces inside JSON
      strings count like any other. */
  function Depth(s: string): int
    decreases |s|
  {
    if s == [] then 0 else Depth(s[..|s| - 1]) + Step(s[|s| - 1])
  }

  lemma DepthSnoc(text: string, start: nat, i: nat)
    requires start <= i < |text|
    ensures Depth(text[start..i + 1]) == Depth(text[start..i]) + Step(text[i])
  {
    assert text[start..i + 1][..i - start] == text[start..i];
  }

  /** The `}` at `i` brings the depth counted from `start` back to zero. */
  ghost predicate ClosesAt(text: string, start: nat, i: int) {
    start <= i < |text| && text[i] == '}' && Depth(text[start..i + 1]) == 0
  }

  /** `i` is the first position that closes the object opened at `start`. */
  ghost predicate FirstClose(text: string, start: nat, i: int) {
    ClosesAt(text, start, i) && forall j :: start <= j < i ==> !ClosesAt(text, start, j)
  }

  /** Two positions that both close first are the same position. */
  lemma FirstCloseUnique(text: string, start: nat, i: int, k: int)
    requires FirstClose(text, start, i) && FirstClose(text, start, k)
    ensures i == k
  {
  }

  /** What the extractor yields: the decoding of the span from the first
      `{` to the `}` that first closes it, or `None` when there is no `{`
      or nothing closes it. */
  ghost function Extracted<J>(text: string, decode: string -> Option<J>): Option<J> {
    var start := IndexOf(text, '{');
    if start < |text| && exists i :: FirstClose(text, start, i) then
      var i :| FirstClose(text, start, i);
      decode(text[start..i + 1])
    else
      None
  }

  /** Scans from the first `{`, counting depth, and decodes the text up to
      the `}` that first returns the depth to zero. Output without `{`, or
      with an object that never closes, gives `None`; so does text the
      decoder rejects. */
  method ExtractJsonFromOutput<J>(text: string, decode: string -> Option<J>) returns (r: Option<J>)
    ensures '{' !in text ==> r == None
    ensures forall i :: FirstClose(text, IndexOf(text, '{'), i) ==> r == decode(text[IndexOf(text, '{')..i + 1])
    ensures (forall i :: !ClosesAt(text, IndexOf(text, '{'), i)) ==> r == None
    ensures r == Extracted(text, decode)
  {
    var start := IndexOf(text, '{');
    if start == |text| {
      return None;
    }
    var depth := 0;
    for i := start to |text|
      invariant depth == Depth(text[start..i])
      invariant forall j :: start <= j < i ==> !ClosesAt(text, start, j)
    {
      DepthSnoc(text, start, i);
      if text[i] == '{' {
        depth := depth + 1;
      }
      if text[i] == '}' {
        depth := depth - 1;
        if depth == 0 {
          assert FirstClose(text, start, i);
          ghost var k :| FirstClose(text, start, k);
          FirstCloseUnique(text, start, i, k);
          return decode(text[start..i + 1]);
        }
      }
    }
    return None;
  }

  /** When some `}` closes the object, one closes it first; with the
      method's contract this covers every output. */
  lemma {:induction false} FirstCloseExists(text: string, start: nat, i: int)
    requires ClosesAt(text, start, i)
    ensures exists k :: FirstClose(text, start, k)
    decreases i
  {
    if !FirstClose(text, start, i) {
      var j :| start <= j < i && ClosesAt(text, start, j);
      FirstCloseExists(text, start, j);
    }
  }

  /** The decoded text is the shortest balanced object at the first `{`:
      it opens with `{`, closes with `}`, and every shorter prefix of it
      leaves at least one brace open. */
  lemma FirstCloseBalanced(text: string, start: nat, i: int)
    requires start < |text| && text[start] == '{'
    requires FirstClose(text, start, i)
    ensures text[start] == '{' && text[i] == '}'
    ensures forall j :: start < j <= i ==> Depth(text[start..j]) > 0
  {
    var j := start + 1;
    assert text[start..j] == [text[start]];
    assert Depth(text[start..j]) == 1 by {
      assert text[start..j][..0] == [];
    }
    while j < i
      invariant start < j <= i
      invariant forall k :: start < k <= j ==> Depth(text[start..k]) > 0
    {
      DepthSnoc(text, start, j);
      assert !ClosesAt(text, start, j);
      j := j + 1;
    }
  }

  /** In `x{{}}{}` the object that closes first is the outer `{{}}`: the
      inner `}` leaves one brace open, and the trailing `{}` is never
      reached. */
  lemma NestedExample()
    ensures IndexOf("x{{}}{}", '{') == 1
    ensures FirstClose("x{{}}{}", 1, 4)
  {
    var text := "x{{}}{}";
    assert text[0] != '{' && text[1] == '{';
    assert text[1..2] == "{" && text[1..3] == "{{" && text[1..4] == "{{}" && text[1..5] == "{{}}";
    assert Depth("{") == 1 by { assert "{"[..0] == ""; }
    assert Depth("{{") == 2 by { assert "{{"[..1] == "{"; }
    assert Depth("{{}") == 1 by { assert "{{}"[..2] == "{{"; }
    assert Depth("{{}}") == 0 by { assert "{{}}"[..3] == "{{}"; }
    assert !ClosesAt(text, 1, 3);
  }
}
