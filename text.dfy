/** The handful of Python `str` operations the tool relies on: stripping,
    `splitlines`, `split` on one separator and on whitespace, `join`,
    `replace(x, "")`, and decimal `int()` / `%d`. Characters compare by code
    point, as Python's do. */
module Text {
  import opened Results

  /** Python's `str.isspace` for one character. */
  predicate IsSpace(c: char) {
    || c == ' '
    || ('\t' <= c <= '\r')
    || ('\U{1C}' <= c <= '\U{1F}')
    || c == '\U{85}' || c == '\U{A0}' || c == '\U{1680}'
    || ('\U{2000}' <= c <= '\U{200A}')
    || c == '\U{2028}' || c == '\U{2029}' || c == '\U{202F}' || c == '\U{205F}' || c == '\U{3000}'
  }

  /** The line boundaries of Python's `str.splitlines` ("\r\n" counts as one). */
  predicate IsLineBreak(c: char) {
    || c == '\n' || c == '\r' || c == '\U{0B}' || c == '\U{0C}'
    || ('\U{1C}' <= c <= '\U{1E}')
    || c == '\U{85}' || c == '\U{2028}' || c == '\U{2029}'
  }

  /** `not s.strip()`: the string is empty or whitespace only. */
  predicate IsBlank(s: string) {
    forall i :: 0 <= i < |s| ==> IsSpace(s[i])
  }

  // ---------------------------------------------------------------------
  // Stripping

  /** `s.rstrip(c)` for a single character `c`: the longest prefix of `s`
      that does not end in `c`, everything cut off being `c`. */
  function RStripChar(s: string, c: char): (r: string)
    ensures |r| <= |s| && r == s[..|r|]
    ensures forall i :: |r| <= i < |s| ==> s[i] == c
    ensures r == [] || r[|r| - 1] != c
    decreases |s|
  {
    if |s| > 0 && s[|s| - 1] == c then RStripChar(s[..|s| - 1], c) else s
  }

  /** `s.rstrip()`: drops trailing whitespace. */
  function RStrip(s: string): (r: string)
    ensures |r| <= |s| && r == s[..|r|]
    ensures forall i :: |r| <= i < |s| ==> IsSpace(s[i])
    ensures r == [] || !IsSpace(r[|r| - 1])
    decreases |s|
  {
    if |s| > 0 && IsSpace(s[|s| - 1]) then RStrip(s[..|s| - 1]) else s
  }

  /** `s.lstrip()`: drops leading whitespace. */
  function LStrip(s: string): (r: string)
    ensures |r| <= |s| && r == s[|s| - |r|..]
    ensures forall i :: 0 <= i < |s| - |r| ==> IsSpace(s[i])
    ensures r == [] || !IsSpace(r[0])
    decreases |s|
  {
    if |s| > 0 && IsSpace(s[0]) then LStrip(s[1..]) else s
  }

  /** `s.strip()`: empty exactly for blank input, otherwise starting and
      ending with a non-space character taken from `s`. */
  function Strip(s: string): (r: string)
    ensures |r| <= |s|
    ensures r == [] <==> IsBlank(s)
    ensures r == [] || (!IsSpace(r[0]) && !IsSpace(r[|r| - 1]))
  {
    var t := RStrip(s);
    var r := LStrip(t);
    assert r != [] ==> r[|r| - 1] == t[|t| - 1];
    assert IsBlank(s) ==> t == [];
    assert t == [] ==> IsBlank(s);
    assert r == [] ==> t == [];
    r
  }

  /** Text without leading or trailing whitespace is its own strip. */
  lemma {:induction false} StripUnpadded(s: string)
    requires s == [] || (!IsSpace(s[0]) && !IsSpace(s[|s| - 1]))
    ensures Strip(s) == s
  {
    if s != [] {
      assert RStrip(s) == s;
      assert LStrip(s) == s;
    }
  }

  // ---------------------------------------------------------------------
  // Searching and splitting

  /** Index of the first `c` in `s`, or `|s|` when there is none. */
  function IndexOf(s: string, c: char): (r: nat)
    ensures r <= |s|
    ensures forall i :: 0 <= i < r ==> s[i] != c
    ensures r < |s| ==> s[r] == c
    ensures r == |s| <==> c !in s
    decreases |s|
  {
    if |s| == 0 then 0 else if s[0] == c then 0 else 1 + IndexOf(s[1..], c)
  }

  /** `sep.join(parts)`. */
  function Join(parts: seq<string>, sep: string): string
    decreases |parts|
  {
    if |parts| == 0 then ""
    else if |parts| == 1 then parts[0]
    else parts[0] + sep + Join(parts[1..], sep)
  }

  /** Joining parts that are all non-empty gives "" exactly when there are none. */
  lemma {:induction false} JoinEmpty(parts: seq<string>, sep: string)
    requires forall i :: 0 <= i < |parts| ==> parts[i] != ""
    ensures Join(parts, sep) == "" <==> parts == []
  {
    if |parts| > 1 {
      assert |Join(parts, sep)| >= |parts[0]|;
    }
  }

  /** A join whose first part is non-empty is non-empty. */
  lemma JoinNonEmpty(parts: seq<string>, sep: string)
    requires parts != [] && parts[0] != ""
    ensures Join(parts, sep) != ""
  {
    if |parts| > 1 {
      assert |Join(parts, sep)| >= |parts[0]|;
    }
  }

  /** `s.split(c)` for a one-character separator: never empty, and no piece
      holds the separator. */
  function Split(s: string, c: char): (r: seq<string>)
    ensures |r| >= 1
    ensures forall i :: 0 <= i < |r| ==> c !in r[i]
    ensures r[0] == s[..IndexOf(s, c)]
    decreases |s|
  {
    var k := IndexOf(s, c);
    if k == |s| then [s] else [s[..k]] + Split(s[k + 1..], c)
  }

  /** Splitting and re-joining with the same separator gives back the text. */
  lemma {:induction false} SplitJoin(s: string, c: char)
    ensures Join(Split(s, c), [c]) == s
    decreases |s|
  {
    var k := IndexOf(s, c);
    if k < |s| {
      var rest := Split(s[k + 1..], c);
      SplitJoin(s[k + 1..], c);
      assert Split(s, c) == [s[..k]] + rest;
      JoinCons(s[..k], rest, [c]);
      Around(s, k);
    }
  }

  /** Text is what comes before position `k`, the character there, and
      what follows. */
  lemma Around(s: string, k: nat)
    requires k < |s|
    ensures s == s[..k] + [s[k]] + s[k + 1..]
  {
  }

  lemma JoinCons(head: string, rest: seq<string>, sep: string)
    requires rest != []
    ensures Join([head] + rest, sep) == head + sep + Join(rest, sep)
  {
    assert ([head] + rest)[1..] == rest;
  }

  /** The first `c` in `a + [c] + b` is the one after `a` when `a` has none. */
  lemma IndexOfAfter(a: string, c: char, b: string)
    requires c !in a
    ensures IndexOf(a + [c] + b, c) == |a|
  {
    var s := a + [c] + b;
    assert s[|a|] == c;
    forall i | 0 <= i < |a| ensures s[i] != c { assert s[i] == a[i]; }
  }

  /** A separator that no piece holds splits the joined text back into the
      pieces. */
  lemma {:induction false} JoinSplit(parts: seq<string>, c: char)
    requires |parts| >= 1
    requires forall i :: 0 <= i < |parts| ==> c !in parts[i]
    ensures Split(Join(parts, [c]), c) == parts
    decreases |parts|
  {
    var s := Join(parts, [c]);
    if |parts| == 1 {
      assert s == parts[0];
      assert IndexOf(s, c) == |s|;
    } else {
      var rest := parts[1..];
      var tail := Join(rest, [c]);
      assert s == parts[0] + [c] + tail;
      var k := |parts[0]|;
      IndexOfAfter(parts[0], c, tail);
      assert s[..k] == parts[0];
      assert s[k + 1..] == tail;
      assert Split(s, c) == [parts[0]] + Split(tail, c);
      JoinSplit(rest, c);
    }
  }

  /** A character in neither the pieces nor the separator is not in the join. */
  lemma {:induction false} JoinAvoids(parts: seq<string>, sep: string, ch: char)
    requires ch !in sep
    requires forall i :: 0 <= i < |parts| ==> ch !in parts[i]
    ensures ch !in Join(parts, sep)
    decreases |parts|
  {
    if |parts| > 1 { JoinAvoids(parts[1..], sep, ch); }
  }

  /** Index of the first line break in `s`, or `|s|`. */
  function LineEnd(s: string): (r: nat)
    ensures r <= |s|
    ensures forall i :: 0 <= i < r ==> !IsLineBreak(s[i])
    ensures r < |s| ==> IsLineBreak(s[r])
    decreases |s|
  {
    if |s| == 0 || IsLineBreak(s[0]) then 0 else 1 + LineEnd(s[1..])
  }

  /** `s.splitlines()`: the lines of `s` without their line breaks; a final
      line break does not start an extra empty line. */
  function SplitLines(s: string): (r: seq<string>)
    ensures r == [] <==> s == []
    ensures r != [] ==> r[0] == s[..LineEnd(s)]
    ensures forall i, j :: 0 <= i < |r| && 0 <= j < |r[i]| ==> !IsLineBreak(r[i][j])
    decreases |s|
  {
    if s == [] then []
    else
      var k := LineEnd(s);
      if k == |s| then [s]
      else
        var next := if s[k] == '\r' && k + 1 < |s| && s[k + 1] == '\n' then k + 2 else k + 1;
        [s[..k]] + SplitLines(s[next..])
  }

  /** Index of the first whitespace character of `s`, or `|s|`. */
  function SpaceIndex(s: string): (r: nat)
    ensures r <= |s|
    ensures forall i :: 0 <= i < r ==> !IsSpace(s[i])
    ensures r < |s| ==> IsSpace(s[r])
    decreases |s|
  {
    if |s| == 0 || IsSpace(s[0]) then 0 else 1 + SpaceIndex(s[1..])
  }

  /** The whitespace-free prefix of `t` has no whitespace in it. */
  lemma SpaceFreePrefix(t: string)
    ensures SpaceIndex(t[..SpaceIndex(t)]) == SpaceIndex(t)
  {
    var w := t[..SpaceIndex(t)];
    forall i | 0 <= i < |w| ensures !IsSpace(w[i]) { assert w[i] == t[i]; }
  }

  /** A non-empty run of non-whitespace characters. */
  predicate IsToken(w: string) {
    w != [] && SpaceIndex(w) == |w|
  }

  lemma TokensCons(w: string, rest: seq<string>)
    requires IsToken(w) && forall i :: 0 <= i < |rest| ==> IsToken(rest[i])
    ensures forall i :: 0 <= i < |[w] + rest| ==> IsToken(([w] + rest)[i])
  {
  }

  /** `s.split()`: the maximal runs of non-whitespace characters. */
  function SplitWhitespace(s: string): (r: seq<string>)
    ensures r == [] <==> IsBlank(s)
    ensures forall i :: 0 <= i < |r| ==> IsToken(r[i])
    ensures r != [] ==> r[0] == LStrip(s)[..SpaceIndex(LStrip(s))]
    decreases |s|
  {
    var t := LStrip(s);
    if t == [] then
      assert IsBlank(s);
      []
    else
      var k := SpaceIndex(t);
      assert k >= 1;
      assert !IsBlank(s) by { assert s[|s| - |t|] == t[0]; }
      var rest := SplitWhitespace(t[k..]);
      var w := t[..k];
      assert IsToken(w) by { SpaceFreePrefix(t); }
      TokensCons(w, rest);
      [w] + rest
  }

  /** `s.replace(c, "")`: every `c` removed, the other characters kept in order. */
  function Remove(s: string, c: char): (r: string)
    ensures c !in r
    ensures c !in s ==> r == s
    ensures forall d :: d != c ==> multiset(r)[d] == multiset(s)[d]
    decreases |s|
  {
    if s == [] then []
    else
      var tail := Remove(s[1..], c);
      assert s == [s[0]] + s[1..];
      if s[0] == c then tail else [s[0]] + tail
  }

  /** Removing `c` keeps a first and a last character that are not `c`. */
  lemma {:induction false} RemoveEnds(s: string, c: char)
    requires s != []
    ensures s[0] != c ==> Remove(s, c) != [] && Remove(s, c)[0] == s[0]
    ensures s[|s| - 1] != c ==> Remove(s, c) != [] && Remove(s, c)[|Remove(s, c)| - 1] == s[|s| - 1]
    decreases |s|
  {
    if |s| > 1 {
      RemoveEnds(s[1..], c);
      assert s[1..][|s[1..]| - 1] == s[|s| - 1];
    }
  }

  /** Removing a character adds no other. */
  lemma {:induction false} RemoveKeepsAbsent(s: string, c: char, d: char)
    requires d !in s
    ensures d !in Remove(s, c)
    decreases |s|
  {
    if s != [] {
      RemoveKeepsAbsent(s[1..], c, d);
    }
  }

  /** Removing spaces and newlines from a string without surrounding
      whitespace leaves one without it, empty only when the string was. */
  lemma RemoveKeepsUnpadded(s: string)
    requires s == [] || (!IsSpace(s[0]) && !IsSpace(s[|s| - 1]))
    ensures var r := Remove(Remove(s, ' '), '\n');
      && ' ' !in r && '\n' !in r
      && (r == [] <==> s == [])
      && (r == [] || (!IsSpace(r[0]) && !IsSpace(r[|r| - 1])))
  {
    RemoveKeepsAbsent(Remove(s, ' '), '\n', ' ');
    if s != [] {
      RemoveEnds(s, ' ');
      RemoveEnds(Remove(s, ' '), '\n');
    }
  }

  // ---------------------------------------------------------------------
  // Decimal integers: Python's `int(text)` and `"%d" % n`

  predicate IsDigit(c: char) { '0' <= c <= '9' }

  predicate AllDigits(s: string) {
    forall i :: 0 <= i < |s| ==> IsDigit(s[i])
  }

  function DigitChar(d: nat): (c: char)
    requires d < 10
    ensures IsDigit(c) && (c as int) - ('0' as int) == d
  {
    (('0' as int) + d) as char
  }

  /** The value of a string of decimal digits, most significant first. */
  function DigitsValue(ds: string): nat
    requires AllDigits(ds)
    decreases |ds|
  {
    if ds == [] then 0
    else 10 * DigitsValue(ds[..|ds| - 1]) + ((ds[|ds| - 1] as int) - ('0' as int))
  }

  /** `"%d" % n` for a non-negative `n`. */
  function NatToString(n: nat): (r: string)
    ensures r != [] && AllDigits(r)
    ensures DigitsValue(r) == n
    decreases n
  {
    if n < 10 then [DigitChar(n)]
    else
      var r := NatToString(n / 10) + [DigitChar(n % 10)];
      assert r[..|r| - 1] == NatToString(n / 10);
      r
  }

  /** `"%d" % n`. */
  function IntToString(n: int): (r: string)
    ensures r != []
    ensures n >= 0 ==> r == NatToString(n)
    ensures n < 0 ==> r == "-" + NatToString(-n)
  {
    if n < 0 then "-" + NatToString(-n) else NatToString(n)
  }

  /** What Python's `int()` accepts after the sign: digits, with single
      underscores allowed between digits. */
  predicate IsDecimal(d: string) {
    && |d| > 0
    && IsDigit(d[0])
    && (forall i :: 0 <= i < |d| ==> IsDigit(d[i]) || d[i] == '_')
    && (forall i :: 0 <= i < |d| - 1 && d[i] == '_' ==> IsDigit(d[i + 1]))
    && IsDigit(d[|d| - 1])
  }

  /** The digits of a decimal literal without its underscores. */
  function DropUnderscores(d: string): (r: string)
    requires forall i :: 0 <= i < |d| ==> IsDigit(d[i]) || d[i] == '_'
    ensures AllDigits(r)
    ensures AllDigits(d) ==> r == d
    decreases |d|
  {
    if d == [] then []
    else if d[0] == '_' then DropUnderscores(d[1..])
    else [d[0]] + DropUnderscores(d[1..])
  }

  function DecimalValue(d: string): nat
    requires IsDecimal(d)
  {
    DigitsValue(DropUnderscores(d))
  }

  /** Python's `int(text)` in base 10: surrounding whitespace is ignored, an
      optional sign, then a decimal literal; anything else is a `ValueError`,
      here `None`. */
  function ParseInt(text: string): (r: Option<int>)
    ensures r.Some? ==> !IsBlank(text)
  {
    var t := Strip(text);
    if |t| > 0 && (t[0] == '+' || t[0] == '-') then
      var body := t[1..];
      if IsDecimal(body) then
        var v: int := DecimalValue(body);
        Some(if t[0] == '-' then -v else v)
      else None
    else if IsDecimal(t) then Some(DecimalValue(t))
    else None
  }

  /** The decimal text of a natural number is a literal `int()` accepts,
      with that value. */
  lemma NatToStringIsDecimal(n: nat)
    ensures IsDecimal(NatToString(n)) && DecimalValue(NatToString(n)) == n
  {
    var d := NatToString(n);
    assert DropUnderscores(d) == d;
  }

  /** `int("%d" % n) == n`: every integer tmux prints reads back as itself. */
  lemma IntToStringParses(n: int)
    ensures ParseInt(IntToString(n)) == Some(n)
  {
    if n < 0 {
      NegativeParses(n);
    } else {
      NaturalParses(n);
    }
  }

  lemma NaturalParses(n: nat)
    ensures ParseInt(IntToString(n)) == Some(n)
  {
    var d := IntToString(n);
    NatToStringIsDecimal(n);
    StripUnpadded(d);
    UnsignedParses(d);
  }

  lemma UnsignedParses(t: string)
    requires IsDecimal(t) && Strip(t) == t
    ensures ParseInt(t) == Some(DecimalValue(t))
  {
    assert IsDigit(t[0]);
  }

  lemma NegativeParses(n: int)
    requires n < 0
    ensures ParseInt(IntToString(n)) == Some(n)
  {
    var s := IntToString(n);
    NegativeText(n);
    NatToStringIsDecimal(-n);
    StripUnpadded(s);
    SignedParses(s);
  }

  lemma NegativeText(n: int)
    requires n < 0
    ensures var s := IntToString(n);
      |s| > 1 && s[0] == '-' && s[1..] == NatToString(-n) && !IsSpace(s[|s| - 1])
  {
    var d := NatToString(-n);
    var s := IntToString(n);
    assert s[1..] == d;
    assert s[|s| - 1] == d[|d| - 1];
  }

  lemma SignedParses(t: string)
    requires |t| > 1 && t[0] == '-' && IsDecimal(t[1..]) && Strip(t) == t
    ensures ParseInt(t) == Some(-(DecimalValue(t[1..]) as int))
  {
  }
}
