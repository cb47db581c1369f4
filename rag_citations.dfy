/** rag/pipeline.py: inline citation markers `[n]` (one to three ASCII digits)
    in a model answer: removing those that point past the source list
    (_sanitize_inline_citations) and detecting any (_has_any_inline_citation). */
module RagCitations {
  import opened Wrappers
  import opened Text
  import opened RagAnchors

  // ---------------------------------------------------------------------------
  // Markers

  /** s[i..i+r] are all digits. */
  predicate DigitsAt(s: string, i: int, r: int)
    requires 0 <= i && i + r <= |s|
  {
    forall j :: i <= j < i + r ==> IsAsciiDigit(s[j])
  }

  /** `\[(\d{1,3})\]` matches at i with r digits. */
  predicate MarkerOf(s: string, i: int, r: int) {
    0 <= i && 1 <= r <= 3 && i + r + 1 < |s| &&
    s[i] == '[' && DigitsAt(s, i + 1, r) && s[i + r + 1] == ']'
  }

  /** The number a marker holds. */
  function MarkerValue(s: string, i: int, r: int): nat
    requires MarkerOf(s, i, r)
  {
    DigitsValue(s[i + 1..i + 1 + r])
  }

  /** A marker at a position has one length only: the digit run ends at the ']'. */
  lemma MarkerUnique(s: string, i: int, r1: int, r2: int)
    requires MarkerOf(s, i, r1) && MarkerOf(s, i, r2)
    ensures r1 == r2
  {
  }

  /** The regex tried at the start of s: the length of the marker there, if any. */
  function MarkerLen(s: string): (m: Option<nat>)
    ensures m.Some? ==> MarkerOf(s, 0, m.value)
    ensures m.None? ==> forall r :: !MarkerOf(s, 0, r)
  {
    if MarkerOf(s, 0, 1) then Some(1)
    else if MarkerOf(s, 0, 2) then Some(2)
    else if MarkerOf(s, 0, 3) then Some(3)
    else None
  }

  predicate InRange(n: int, maxRef: int) { 1 <= n <= maxRef }

  /** No marker points outside 1..maxRef. */
  ghost predicate Clean(s: string, maxRef: int) {
    forall i, r :: MarkerOf(s, i, r) ==> InRange(MarkerValue(s, i, r), maxRef)
  }

  // ---------------------------------------------------------------------------
  // The substitution

  /** `_CITATION_RE.sub(_repl, text)`: scanning left to right, a marker in range is
      kept, one out of range is deleted, and scanning resumes after it. */
  function SubMarkers(s: string, maxRef: int): (t: string)
    ensures |t| <= |s|
    decreases |s|
  {
    if s == [] then []
    else
      match MarkerLen(s)
      case Some(r) =>
        (if InRange(MarkerValue(s, 0, r), maxRef) then s[..r + 2] else []) + SubMarkers(s[r + 2..], maxRef)
      case None => [s[0]] + SubMarkers(s[1..], maxRef)
  }

  predicate IsBlank(c: char) { c == ' ' }

  /** _sanitize_inline_citations: the substitution, then `re.sub(" {2,}", " ")`
      (a run of spaces becomes one space), then strip(). */
  function Sanitize(text: string, maxRef: int): string {
    Strip(CollapseRuns(SubMarkers(text, maxRef), IsBlank, ' '))
  }

  /** `_CITATION_RE.search(text)`: some position starts a marker. */
  predicate HasAnyCitation(s: string)
    decreases |s|
  {
    s != [] && (MarkerLen(s).Some? || HasAnyCitation(s[1..]))
  }

  // ---------------------------------------------------------------------------
  // Markers inside a substring

  lemma MarkerShift(s: string, d: int, i: int, r: int)
    requires 0 <= d <= i && d <= |s|
    ensures MarkerOf(s, i, r) <==> MarkerOf(s[d..], i - d, r)
    ensures MarkerOf(s, i, r) ==> MarkerValue(s, i, r) == MarkerValue(s[d..], i - d, r)
  {
    if 1 <= r <= 3 && i + r + 1 < |s| {
      assert forall j :: i + 1 <= j < i + 1 + r ==> s[j] == s[d..][j - d];
      assert s[i + 1..i + 1 + r] == s[d..][i - d + 1..i - d + 1 + r];
    }
  }

  lemma MarkerInSlice(s: string, a: int, b: int, i: int, r: int)
    requires 0 <= a <= b <= |s| && MarkerOf(s[a..b], i, r)
    ensures MarkerOf(s, a + i, r) && MarkerValue(s, a + i, r) == MarkerValue(s[a..b], i, r)
  {
    assert forall j :: 0 <= j < b - a ==> s[a..b][j] == s[a + j];
    assert s[a..b][i + 1..i + 1 + r] == s[a + i + 1..a + i + 1 + r];
  }

  /** A substring of a clean string is clean. */
  lemma CleanSlice(s: string, a: int, b: int, maxRef: int)
    requires 0 <= a <= b <= |s| && Clean(s, maxRef)
    ensures Clean(s[a..b], maxRef)
  {
    forall i, r | MarkerOf(s[a..b], i, r) ensures InRange(MarkerValue(s[a..b], i, r), maxRef) {
      MarkerInSlice(s, a, b, i, r);
    }
  }

  lemma CleanSuffix(s: string, d: int, maxRef: int)
    requires 0 <= d <= |s| && Clean(s, maxRef)
    ensures Clean(s[d..], maxRef)
  {
    CleanSlice(s, d, |s|, maxRef);
    assert s[d..|s|] == s[d..];
  }

  /** A string is clean when its suffix from d is and no marker starts before d. */
  lemma CleanFromSuffix(s: string, d: int, maxRef: int)
    requires 0 <= d <= |s| && Clean(s[d..], maxRef)
    requires forall i, r :: 0 <= i < d ==> !MarkerOf(s, i, r)
    ensures Clean(s, maxRef)
  {
    forall i, r | MarkerOf(s, i, r) ensures InRange(MarkerValue(s, i, r), maxRef) {
      MarkerShift(s, d, i, r);
    }
  }

  // ---------------------------------------------------------------------------
  // What the substitution does

  /** A string starting with an in-range marker is clean when the rest after it is. */
  lemma CleanFromMarker(s: string, r: int, maxRef: int)
    requires MarkerOf(s, 0, r) && InRange(MarkerValue(s, 0, r), maxRef)
    requires Clean(s[r + 2..], maxRef)
    ensures Clean(s, maxRef)
  {
    forall i, r' | MarkerOf(s, i, r') ensures InRange(MarkerValue(s, i, r'), maxRef) {
      if i == 0 {
        MarkerUnique(s, 0, r, r');
      } else if i >= r + 2 {
        MarkerShift(s, r + 2, i, r');
      }
    }
  }

  lemma NoMarkerAtStart(s: string, maxRef: int)
    requires MarkerLen(s).None?
    ensures forall i, r :: 0 <= i < 1 ==> !MarkerOf(s, i, r)
  {
  }

  /** The substitution changes nothing exactly when no marker is out of range. */
  lemma {:induction false} SubMarkersFixedIff(s: string, maxRef: int)
    ensures SubMarkers(s, maxRef) == s <==> Clean(s, maxRef)
    decreases |s|
  {
    if s != [] {
      match MarkerLen(s)
      case Some(r) =>
        var rest := s[r + 2..];
        SubMarkersFixedIff(rest, maxRef);
        assert s == s[..r + 2] + rest;
        if InRange(MarkerValue(s, 0, r), maxRef) {
          var t := SubMarkers(rest, maxRef);
          assert SubMarkers(s, maxRef) == s[..r + 2] + t;
          if SubMarkers(s, maxRef) == s {
            assert t == (s[..r + 2] + t)[r + 2..];
            CleanFromMarker(s, r, maxRef);
          }
          if Clean(s, maxRef) {
            CleanSuffix(s, r + 2, maxRef);
          }
        } else {
          assert MarkerOf(s, 0, r);
          assert |SubMarkers(s, maxRef)| < |s|;
        }
      case None =>
        SubMarkersFixedIff(s[1..], maxRef);
        assert s == [s[0]] + s[1..];
        if SubMarkers(s, maxRef) == s {
          assert SubMarkers(s[1..], maxRef) == s[1..];
          NoMarkerAtStart(s, maxRef);
          CleanFromSuffix(s, 1, maxRef);
        }
        if Clean(s, maxRef) {
          CleanSuffix(s, 1, maxRef);
        }
    }
  }

  /** A substitution that changes something makes the text shorter. */
  lemma {:induction false} SubMarkersShrinks(s: string, maxRef: int)
    ensures SubMarkers(s, maxRef) == s || |SubMarkers(s, maxRef)| < |s|
    decreases |s|
  {
    if s != [] {
      match MarkerLen(s)
      case Some(r) =>
        var rest := s[r + 2..];
        SubMarkersShrinks(rest, maxRef);
        var h := if InRange(MarkerValue(s, 0, r), maxRef) then s[..r + 2] else [];
        ShrinkStep(s, r + 2, h, SubMarkers(rest, maxRef));
      case None =>
        SubMarkersShrinks(s[1..], maxRef);
        ShrinkStep(s, 1, [s[0]], SubMarkers(s[1..], maxRef));
    }
  }

  /** Keeping or dropping the first n characters, followed by a rest that is
      unchanged or shorter, leaves the text unchanged or shorter. */
  lemma ShrinkStep(s: string, n: nat, h: string, t: string)
    requires 1 <= n <= |s| && (h == s[..n] || h == [])
    requires t == s[n..] || |t| < |s[n..]|
    ensures h + t == s || |h + t| < |s|
  {
    if h == s[..n] {
      KeepHead(h, s[n..], t);
      assert s == s[..n] + s[n..];
    }
  }

  /** Prefixing the same head keeps "unchanged or shorter". */
  lemma KeepHead(h: string, rest: string, t: string)
    requires t == rest || |t| < |rest|
    ensures h + t == h + rest || |h + t| < |h + rest|
  {
  }

  /** `_CITATION_RE.search` finds a marker exactly when one starts somewhere. */
  lemma {:induction false} HasAnyCitationIff(s: string)
    ensures HasAnyCitation(s) ==> exists i, r :: MarkerOf(s, i, r)
    ensures forall i, r :: MarkerOf(s, i, r) ==> HasAnyCitation(s)
    decreases |s|
  {
    if s != [] {
      HasAnyCitationIff(s[1..]);
      forall i, r | MarkerOf(s, i, r) ensures HasAnyCitation(s) {
        if i >= 1 { MarkerShift(s, 1, i, r); }
      }
      if HasAnyCitation(s) && MarkerLen(s).None? {
        var i, r :| MarkerOf(s[1..], i, r);
        MarkerShift(s, 1, i + 1, r);
      }
    }
  }

  /** No two neighbouring spaces. */
  predicate NoDoubleSpace(s: string) {
    forall i :: 0 <= i < |s| - 1 ==> !(s[i] == ' ' && s[i + 1] == ' ')
  }

  /** The sanitised answer has no run of spaces and no surrounding whitespace. */
  lemma SanitizeShape(text: string, maxRef: int)
    ensures NoDoubleSpace(Sanitize(text, maxRef)) && IsStripped(Sanitize(text, maxRef))
  {
    var c := CollapseRuns(SubMarkers(text, maxRef), IsBlank, ' ');
    CollapseRunsNoDoubles(SubMarkers(text, maxRef), IsBlank, ' ');
    var a, b := StripSlice(c);
    forall i | 0 <= i < b - a - 1 ensures !(c[a..b][i] == ' ' && c[a..b][i + 1] == ' ') {
      assert c[a..b][i] == c[a + i] && c[a..b][i + 1] == c[a + i + 1];
    }
    StripSpec(c);
  }

  // ---------------------------------------------------------------------------
  // Deleting a marker can leave a new one behind

  lemma SubMarkersExample()
    ensures SubMarkers("[2[99]]", 1) == "[2]"
  {
    var s := "[2[99]]";
    assert MarkerLen(s).None?;
    assert s[1..] == "2[99]]";
    assert MarkerLen(s[1..]).None?;
    var u := s[1..][1..];
    assert u == "[99]]";
    SubMarkersDropsNinetyNine();
  }

  /** The out-of-range "[99]" goes, the ']' after it stays. */
  lemma SubMarkersDropsNinetyNine()
    ensures SubMarkers("[99]]", 1) == "]"
  {
    var u := "[99]]";
    assert MarkerOf(u, 0, 2) && !MarkerOf(u, 0, 1);
    assert u[1..3] == "99";
    assert DigitsValue("99") == 99 by {
      assert "99"[..1] == "9";
    }
    assert u[4..] == "]";
    assert SubMarkers("]", 1) == "]" by {
      assert MarkerLen("]").None?;
      assert "]"[1..] == "";
    }
  }

  /** "[2[99]]" with one source: the inner "[99]" goes and the "[2]" it leaves
      points past the only source. */
  lemma SanitizeLeavesOutOfRange()
    ensures Sanitize("[2[99]]", 1) == "[2]"
    ensures !Clean(Sanitize("[2[99]]", 1), 1)
  {
    SubMarkersExample();
    CollapseRunsId("[2]", IsBlank, ' ');
    StripOfStripped("[2]");
    OutOfRangeExample();
  }

  lemma OutOfRangeExample()
    ensures !Clean("[2]", 1)
  {
    var t := "[2]";
    assert MarkerOf(t, 0, 1);
    assert t[1..2] == "2";
    assert MarkerValue(t, 0, 1) == 2;
  }

  /** The evident intent: repeat the substitution until nothing more goes. */
  function Purge(s: string, maxRef: int): string
    decreases |s|
  {
    var t := SubMarkers(s, maxRef);
    if t == s then s
    else
      SubMarkersShrinks(s, maxRef);
      Purge(t, maxRef)
  }

  function SanitizeFixed(text: string, maxRef: int): string {
    Strip(CollapseRuns(Purge(text, maxRef), IsBlank, ' '))
  }

  lemma {:induction false} PurgeClean(s: string, maxRef: int)
    ensures Clean(Purge(s, maxRef), maxRef)
    decreases |s|
  {
    var t := SubMarkers(s, maxRef);
    if t == s {
      SubMarkersFixedIff(s, maxRef);
    } else {
      SubMarkersShrinks(s, maxRef);
      PurgeClean(t, maxRef);
    }
  }

  /** Collapsing spaces leaves a prefix without spaces as it was. */
  lemma {:induction false} CollapsePrefix(u: string, n: int)
    requires 0 <= n <= |CollapseRuns(u, IsBlank, ' ')|
    requires forall j :: 0 <= j < n ==> CollapseRuns(u, IsBlank, ' ')[j] != ' '
    ensures n <= |u| && CollapseRuns(u, IsBlank, ' ')[..n] == u[..n]
    decreases |u|
  {
    if n > 0 {
      var c := CollapseRuns(u, IsBlank, ' ');
      assert u != [] && !IsBlank(u[0]);
      var d := CollapseRuns(u[1..], IsBlank, ' ');
      assert c == [u[0]] + d;
      forall j | 0 <= j < n - 1 ensures d[j] != ' ' {
        assert d[j] == c[j + 1];
      }
      CollapsePrefix(u[1..], n - 1);
      assert c[..n] == [u[0]] + d[..n - 1];
      assert u[..n] == [u[0]] + u[1..][..n - 1];
    }
  }

  lemma CleanCons(c: char, x: string, maxRef: int)
    requires c != '[' && Clean(x, maxRef)
    ensures Clean([c] + x, maxRef)
  {
    assert ([c] + x)[1..] == x;
    CleanFromSuffix([c] + x, 1, maxRef);
  }

  /** A marker at the start of `['['] + CollapseRuns(u)` is one at the start of `['['] + u`. */
  lemma MarkerThroughCollapse(u: string, k: int)
    requires MarkerOf(['['] + CollapseRuns(u, IsBlank, ' '), 0, k)
    ensures MarkerOf(['['] + u, 0, k)
    ensures MarkerValue(['['] + u, 0, k) == MarkerValue(['['] + CollapseRuns(u, IsBlank, ' '), 0, k)
  {
    var c := CollapseRuns(u, IsBlank, ' ');
    var r := ['['] + c;
    var w := ['['] + u;
    forall j | 0 <= j < k + 1 ensures c[j] != ' ' {
      assert c[j] == r[j + 1];
    }
    CollapsePrefix(u, k + 1);
    assert r[..k + 2] == ['['] + c[..k + 1];
    assert w[..k + 2] == ['['] + u[..k + 1];
    SamePrefixMarker(r, w, k);
  }

  /** A marker at the start depends only on its own k + 2 characters. */
  lemma SamePrefixMarker(a: string, b: string, k: int)
    requires MarkerOf(a, 0, k) && k + 2 <= |b| && a[..k + 2] == b[..k + 2]
    ensures MarkerOf(b, 0, k) && MarkerValue(b, 0, k) == MarkerValue(a, 0, k)
  {
    forall j | 0 <= j < k + 2 ensures a[j] == b[j] {
      assert a[j] == a[..k + 2][j] && b[j] == b[..k + 2][j];
    }
    assert a[1..1 + k] == b[1..1 + k];
  }

  /** Collapsing spaces makes no new marker. */
  lemma {:induction false} CleanCollapse(s: string, maxRef: int)
    requires Clean(s, maxRef)
    ensures Clean(CollapseRuns(s, IsBlank, ' '), maxRef)
    decreases |s|
  {
    if s != [] {
      if IsBlank(s[0]) {
        var t := DropWhile(s[1..], IsBlank);
        CleanSuffix(s, |s| - |t|, maxRef);
        assert s[|s| - |t|..] == t;
        CleanCollapse(t, maxRef);
        CleanCons(' ', CollapseRuns(t, IsBlank, ' '), maxRef);
      } else {
        CleanSuffix(s, 1, maxRef);
        CleanCollapse(s[1..], maxRef);
        var x := CollapseRuns(s[1..], IsBlank, ' ');
        if s[0] != '[' {
          CleanCons(s[0], x, maxRef);
        } else {
          var r := [s[0]] + x;
          assert ([s[0]] + x)[1..] == x;
          assert s == ['['] + s[1..];
          forall i, k | MarkerOf(r, i, k) ensures InRange(MarkerValue(r, i, k), maxRef) {
            if i == 0 {
              MarkerThroughCollapse(s[1..], k);
            } else {
              MarkerShift(r, 1, i, k);
            }
          }
        }
      }
    }
  }

  /** The corrected sanitiser leaves no marker out of range, no run of spaces and
      no surrounding whitespace. */
  lemma SanitizeFixedSpec(text: string, maxRef: int)
    ensures Clean(SanitizeFixed(text, maxRef), maxRef)
    ensures NoDoubleSpace(SanitizeFixed(text, maxRef)) && IsStripped(SanitizeFixed(text, maxRef))
  {
    var p := Purge(text, maxRef);
    PurgeClean(text, maxRef);
    CleanCollapse(p, maxRef);
    var c := CollapseRuns(p, IsBlank, ' ');
    CollapseRunsNoDoubles(p, IsBlank, ' ');
    var a, b := StripSlice(c);
    CleanSlice(c, a, b, maxRef);
    forall i | 0 <= i < b - a - 1 ensures !(c[a..b][i] == ' ' && c[a..b][i + 1] == ' ') {
      assert c[a..b][i] == c[a + i] && c[a..b][i + 1] == c[a + i + 1];
    }
    StripSpec(c);
  }

  /** Where one pass already leaves nothing out of range, the corrected sanitiser
      gives what _sanitize_inline_citations gives. */
  lemma SanitizeFixedAgrees(text: string, maxRef: int)
    requires Clean(SubMarkers(text, maxRef), maxRef)
    ensures SanitizeFixed(text, maxRef) == Sanitize(text, maxRef)
  {
    var t := SubMarkers(text, maxRef);
    SubMarkersFixedIff(t, maxRef);
    if t != text {
      SubMarkersShrinks(text, maxRef);
      assert Purge(text, maxRef) == Purge(t, maxRef);
    }
  }
}
