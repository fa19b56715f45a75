/** The plan cache key of `build_cache_key`: a SHA-256 digest of a text that
    lists the session path, every window's name with its panes' sorted
    fingerprints, and the opencode enrichment text, cut to 16 hex digits.
    The hash itself (of the text's UTF-8 encoding) is a parameter. */
module CacheKey {
  import opened Text
  import opened Seqs
  import opened Ordering
  import opened Tmux

  newtype Byte = x: int | 0 <= x < 256

  type Digest = d: seq<Byte> | |d| == 32 witness seq(32, i => 0 as Byte)

  const HexDigits: string := "0123456789abcdef"

  /** `hexdigest()`: two lower-case hex digits per byte, high nibble first. */
  function Hex(bytes: seq<Byte>): (r: string)
    ensures |r| == 2 * |bytes|
    ensures forall i :: 0 <= i < |r| ==> r[i] in HexDigits
    decreases |bytes|
  {
    if bytes == [] then []
    else
      var b := bytes[0] as int;
      [HexDigits[b / 16], HexDigits[b % 16]] + Hex(bytes[1..])
  }

  /** What a pane contributes: its process command line, or the command
      name when no child process was found, then `:` and its full path. */
  function PaneFingerprint(p: Pane): string {
    (if p.cmdline != "" then p.cmdline else p.command) + ":" + p.fullPath
  }

  /** What a window contributes: its name, then its pane fingerprints in
      ascending order, all separated by `|`. */
  function WindowFingerprint(w: Window): string {
    w.name + "|" + Join(Sort(Map(w.panes, PaneFingerprint)), "|")
  }

  /** The text that is hashed. */
  function Preimage(context: Session, opencodeContext: string): string {
    context.sessionPath + ";" + Join(Map(context.windows, WindowFingerprint), ";") + ";" + opencodeContext
  }

  /** The first 16 hex digits of the digest of the pre-image. */
  function KeyOf(context: Session, opencodeContext: string, sha: string -> Digest): (key: string)
    ensures |key| == 16 && forall i :: 0 <= i < 16 ==> key[i] in HexDigits
  {
    Hex(sha(Preimage(context, opencodeContext)))[..16]
  }

  /** `build_cache_key`: the window fingerprints are collected one window
      at a time, then joined and hashed. */
  method BuildCacheKey(context: Session, opencodeContext: string, sha: string -> Digest) returns (key: string)
    ensures key == KeyOf(context, opencodeContext, sha)
  {
    var stableParts: seq<string> := [];
    for i := 0 to |context.windows|
      invariant |stableParts| == i
      invariant forall k :: 0 <= k < i ==> stableParts[k] == WindowFingerprint(context.windows[k])
    {
      var window := context.windows[i];
      var paneFingerprints := Sort(Map(window.panes, PaneFingerprint));
      stableParts := stableParts + [window.name + "|" + Join(paneFingerprints, "|")];
    }
    assert stableParts == Map(context.windows, WindowFingerprint);
    var rawKey := context.sessionPath + ";" + Join(stableParts, ";") + ";" + opencodeContext;
    assert rawKey == Preimage(context, opencodeContext);
    key := Hex(sha(rawKey))[..16];
  }

  /** Listing a window's panes in another order does not change what the
      window contributes. */
  lemma PaneOrderIrrelevant(w: Window, panes: seq<Pane>)
    requires multiset(panes) == multiset(w.panes)
    ensures WindowFingerprint(w.(panes := panes)) == WindowFingerprint(w)
  {
    MapMultiset(panes, w.panes, PaneFingerprint);
    SortIgnoresOrder(Map(panes, PaneFingerprint), Map(w.panes, PaneFingerprint));
  }

  /** Two snapshots that differ only in the order of the panes inside each
      window get the same cache key. */
  lemma PaneOrderKeepsKey(a: Session, b: Session, opencodeContext: string, sha: string -> Digest)
    requires a.sessionPath == b.sessionPath && |a.windows| == |b.windows|
    requires forall i :: 0 <= i < |a.windows| ==>
      a.windows[i].name == b.windows[i].name && multiset(a.windows[i].panes) == multiset(b.windows[i].panes)
    ensures KeyOf(a, opencodeContext, sha) == KeyOf(b, opencodeContext, sha)
  {
    forall i | 0 <= i < |a.windows| ensures WindowFingerprint(a.windows[i]) == WindowFingerprint(b.windows[i]) {
      PaneOrderIrrelevant(b.windows[i], a.windows[i].panes);
      assert WindowFingerprint(b.windows[i].(panes := a.windows[i].panes)) == WindowFingerprint(a.windows[i]);
    }
    assert Map(a.windows, WindowFingerprint) == Map(b.windows, WindowFingerprint);
  }

  /** The enrichment text is part of the pre-image: for the same snapshot,
      different opencode titles give different pre-images. */
  lemma EnrichmentInPreimage(context: Session, oc1: string, oc2: string)
    requires oc1 != oc2
    ensures Preimage(context, oc1) != Preimage(context, oc2)
  {
    var prefix := context.sessionPath + ";" + Join(Map(context.windows, WindowFingerprint), ";") + ";";
    assert Preimage(context, oc1) == prefix + oc1;
    assert Preimage(context, oc2) == prefix + oc2;
    if |oc1| == |oc2| {
      var i :| 0 <= i < |oc1| && oc1[i] != oc2[i];
      assert (prefix + oc1)[|prefix| + i] == oc1[i];
      assert (prefix + oc2)[|prefix| + i] == oc2[i];
    }
  }

  /** The window fingerprints are part of the pre-image: for the same
      session path and enrichment text, and fingerprints without `;`, two
      snapshots hash the same text exactly when they list the same
      fingerprints in the same order. Listing the windows in another order
      therefore changes the key unless their fingerprints coincide. */
  lemma FingerprintsInPreimage(a: Session, b: Session, opencodeContext: string)
    requires a.sessionPath == b.sessionPath
    requires forall i :: 0 <= i < |a.windows| ==> ';' !in WindowFingerprint(a.windows[i])
    requires forall i :: 0 <= i < |b.windows| ==> ';' !in WindowFingerprint(b.windows[i])
    ensures Preimage(a, opencodeContext) == Preimage(b, opencodeContext) <==>
      Map(a.windows, WindowFingerprint) == Map(b.windows, WindowFingerprint)
  {
    var fa := Map(a.windows, WindowFingerprint);
    var fb := Map(b.windows, WindowFingerprint);
    if Preimage(a, opencodeContext) == Preimage(b, opencodeContext) {
      Cancel(a.sessionPath, Join(fa, ";"), Join(fb, ";"), opencodeContext);
      FingerprintsJoin(fa, fb);
    }
  }

  /** The window part of a pre-image is determined by the pre-image, the
      path and the enrichment text. */
  lemma Cancel(path: string, x: string, y: string, oc: string)
    requires path + ";" + x + ";" + oc == path + ";" + y + ";" + oc
    ensures x == y
  {
    var k := |path| + 1;
    assert |x| == |y|;
    assert x == (path + ";" + x + ";" + oc)[k..k + |x|];
    assert y == (path + ";" + y + ";" + oc)[k..k + |y|];
  }

  /** Window fingerprints without `;` joined by `;` give back the list. */
  lemma FingerprintsJoin(fa: seq<string>, fb: seq<string>)
    requires forall i :: 0 <= i < |fa| ==> ';' !in fa[i] && fa[i] != ""
    requires forall i :: 0 <= i < |fb| ==> ';' !in fb[i] && fb[i] != ""
    requires Join(fa, ";") == Join(fb, ";")
    ensures fa == fb
  {
    if fa != [] {
      JoinNonEmpty(fa, ";");
    }
    if fb != [] {
      JoinNonEmpty(fb, ";");
    }
    if fa != [] && fb != [] {
      JoinSplit(fa, ';');
      JoinSplit(fb, ';');
    }
  }
}
