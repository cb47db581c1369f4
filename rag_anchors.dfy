/** rag/pipeline.py: turning a section path into a URL fragment (_slugify_anchor)
    and attaching it to a source URL (_append_anchor). Word characters are the
    ASCII letters, digits and '_'. */
module RagAnchors {
  import opened Wrappers
  import opened Text
  import opened Lists

  /** `\w`, restricted to ASCII. */
  predicate IsWordChar(c: char) { IsAsciiAlnum(c) || c == '_' }

  /** What `[^\w\s-]` does not remove. */
  predicate KeptChar(c: char) { IsWordChar(c) || IsSpace(c) || c == '-' }

  predicate IsLowerOrSpace(c: char) { IsSlugChar(c) || IsSpace(c) }

  predicate IsSlugChar(c: char) { ('a' <= c <= 'z') || IsAsciiDigit(c) || c == '_' || c == '-' }

  /** A slug: lower-case word characters and single dashes, no dash at either end. */
  predicate IsSlug(s: string) {
    && (forall i :: 0 <= i < |s| ==> IsSlugChar(s[i]))
    && (s == [] || (s[0] != '-' && s[|s| - 1] != '-'))
    && (forall i :: 0 <= i < |s| - 1 ==> !(s[i] == '-' && s[i + 1] == '-'))
  }

  predicate IsDash(c: char) { c == '-' }

  /** The list without its leading run of elements satisfying p. */
  function DropWhile(s: string, p: char -> bool): (r: string)
    ensures |r| <= |s| && r == s[|s| - |r|..]
    ensures r == [] || !p(r[0])
    ensures forall i :: 0 <= i < |s| - |r| ==> p(s[i])
    decreases |s|
  {
    if s != [] && p(s[0]) then DropWhile(s[1..], p) else s
  }

  /** `re.sub(r"X+", rep, s)` for a one-character class X = p: each maximal run of
      characters satisfying p becomes the single character rep. */
  function CollapseRuns(s: string, p: char -> bool, rep: char): (r: string)
    ensures s != [] ==> r != [] && r[0] == (if p(s[0]) then rep else s[0])
    decreases |s|
  {
    if s == [] then []
    else if p(s[0]) then [rep] + CollapseRuns(DropWhile(s[1..], p), p, rep)
    else [s[0]] + CollapseRuns(s[1..], p, rep)
  }

  /** `re.sub(r"\s+", "-", s)`. */
  function SpacesToDash(s: string): string { CollapseRuns(s, IsSpace, '-') }

  /** `re.sub(r"-{2,}", "-", s)`: a run of one dash is already a single dash. */
  function CollapseDashes(s: string): string { CollapseRuns(s, IsDash, '-') }

  /** _slugify_anchor: strip, lower-case, drop what is neither a word character,
      whitespace nor '-', turn whitespace runs into '-', collapse dash runs, and
      strip dashes from both ends. */
  function Slugify(text: string): string {
    StripChar(CollapseDashes(SpacesToDash(Filter(Lower(Strip(text)), KeptChar))), '-')
  }

  // ---------------------------------------------------------------------------
  // Collapsing runs

  /** Collapsing keeps a character class that holds of rep and of everything outside the runs. */
  lemma {:induction false} CollapseRunsChars(s: string, p: char -> bool, rep: char, q: char -> bool)
    requires forall i :: 0 <= i < |s| ==> p(s[i]) || q(s[i])
    requires q(rep)
    ensures forall i :: 0 <= i < |CollapseRuns(s, p, rep)| ==> q(CollapseRuns(s, p, rep)[i])
    decreases |s|
  {
    if s != [] {
      if p(s[0]) {
        var t := DropWhile(s[1..], p);
        assert CollapseRuns(s, p, rep) == [rep] + CollapseRuns(t, p, rep);
        forall i | 0 <= i < |t| ensures p(t[i]) || q(t[i]) {
          assert t[i] == s[|s| - |t| + i];
        }
        CollapseRunsChars(t, p, rep, q);
      } else {
        assert CollapseRuns(s, p, rep) == [s[0]] + CollapseRuns(s[1..], p, rep);
        CollapseRunsChars(s[1..], p, rep, q);
      }
    }
  }

  /** When rep is itself in the class, no two neighbours of the result are. */
  lemma {:induction false} CollapseRunsNoDoubles(s: string, p: char -> bool, rep: char)
    requires p(rep)
    ensures forall i :: 0 <= i < |CollapseRuns(s, p, rep)| - 1 ==>
      !(p(CollapseRuns(s, p, rep)[i]) && p(CollapseRuns(s, p, rep)[i + 1]))
    decreases |s|
  {
    if s != [] {
      if p(s[0]) {
        CollapseRunsNoDoubles(DropWhile(s[1..], p), p, rep);
      } else {
        CollapseRunsNoDoubles(s[1..], p, rep);
      }
    }
  }

  /** A string with no run longer than one, every run already rep, is left alone. */
  lemma {:induction false} CollapseRunsId(s: string, p: char -> bool, rep: char)
    requires forall i :: 0 <= i < |s| ==> p(s[i]) ==> s[i] == rep
    requires forall i :: 0 <= i < |s| - 1 ==> !(p(s[i]) && p(s[i + 1]))
    ensures CollapseRuns(s, p, rep) == s
    decreases |s|
  {
    if s != [] {
      assert |s| == 1 || !p(s[0]) || !p(s[1..][0]);
      CollapseRunsId(s[1..], p, rep);
    }
  }

  lemma WordsOfInner(u: string, a: int, b: int)
    requires 0 <= a <= b <= |u|
    requires forall i :: 0 <= i < a ==> !IsWordChar(u[i])
    requires forall i :: b <= i < |u| ==> !IsWordChar(u[i])
    ensures Filter(u[a..b], IsWordChar) == Filter(u, IsWordChar)
  {
    var v := u[a..];
    assert v[..b - a] == u[a..b];
    assert forall i :: b - a <= i < |v| ==> !IsWordChar(v[i]) by {
      forall i | b - a <= i < |v| ensures !IsWordChar(v[i]) {
        assert v[i] == u[a + i];
      }
    }
    FilterDropSuffix(v, b - a, IsWordChar);
    FilterDropPrefix(u, a, IsWordChar);
  }

  /** Dropping a leading run of non-word characters keeps the word characters. */
  lemma DropRunWords(u: string, p: char -> bool)
    requires forall c :: p(c) ==> !IsWordChar(c)
    ensures Filter(DropWhile(u, p), IsWordChar) == Filter(u, IsWordChar)
  {
    var a := |u| - |DropWhile(u, p)|;
    forall i | 0 <= i < a ensures !IsWordChar(u[i]) {
      assert p(u[i]);
    }
    FilterDropPrefix(u, a, IsWordChar);
  }

  /** Collapsing runs of non-word characters into a non-word character keeps the
      word characters. */
  lemma {:induction false} CollapseRunsWords(s: string, p: char -> bool, rep: char)
    requires forall c :: p(c) ==> !IsWordChar(c)
    requires !IsWordChar(rep)
    ensures Filter(CollapseRuns(s, p, rep), IsWordChar) == Filter(s, IsWordChar)
    decreases |s|
  {
    if s != [] {
      if p(s[0]) {
        var t := DropWhile(s[1..], p);
        CollapseRunsWords(t, p, rep);
        assert CollapseRuns(s, p, rep) == [rep] + CollapseRuns(t, p, rep);
        FilterCons(rep, CollapseRuns(t, p, rep), IsWordChar);
        DropRunWords(s[1..], p);
        assert s == [s[0]] + s[1..];
        FilterCons(s[0], s[1..], IsWordChar);
      } else {
        CollapseRunsWords(s[1..], p, rep);
        FilterCons(s[0], CollapseRuns(s[1..], p, rep), IsWordChar);
      }
    }
  }

  // ---------------------------------------------------------------------------
  // The result is a slug

  lemma LoweredKept(t: string)
    ensures forall i :: 0 <= i < |Filter(Lower(t), KeptChar)| ==> IsLowerOrSpace(Filter(Lower(t), KeptChar)[i])
  {
    var lt := Lower(t);
    forall i | 0 <= i < |Filter(lt, KeptChar)| ensures IsLowerOrSpace(Filter(lt, KeptChar)[i]) {
      var x := Filter(lt, KeptChar)[i];
      assert x in Filter(lt, KeptChar);
      FilterMembers(lt, KeptChar, x);
      var j :| 0 <= j < |lt| && lt[j] == x;
    }
  }

  /** strip('-') leaves a substring with no dash at either end. */
  lemma StripCharInner(s: string, c: char) returns (a: int, b: int)
    ensures 0 <= a <= b <= |s| && StripChar(s, c) == s[a..b]
    ensures forall i :: 0 <= i < a ==> s[i] == c
    ensures forall i :: b <= i < |s| ==> s[i] == c
  {
    var l := LStripChar(s, c);
    var r := RStripChar(l, c);
    LStripCharSpec(s, c);
    RStripCharSpec(l, c);
    a := |s| - |l|;
    b := a + |r|;
    assert r == s[a..a + |r|];
    forall i | a + |r| <= i < |s| ensures s[i] == c {
      assert s[i] == l[i - a];
    }
  }

  lemma SlugOfInner(s: string, a: int, b: int)
    requires 0 <= a <= b <= |s|
    requires forall i :: 0 <= i < |s| ==> IsSlugChar(s[i])
    requires forall i :: 0 <= i < |s| - 1 ==> !(IsDash(s[i]) && IsDash(s[i + 1]))
    ensures forall i :: 0 <= i < b - a ==> IsSlugChar(s[a..b][i])
    ensures forall i :: 0 <= i < b - a - 1 ==> !(s[a..b][i] == '-' && s[a..b][i + 1] == '-')
  {
    forall i | 0 <= i < b - a - 1 ensures !(s[a..b][i] == '-' && s[a..b][i + 1] == '-') {
      assert s[a..b][i] == s[a + i] && s[a..b][i + 1] == s[a + i + 1];
    }
  }

  /** Every slug _slugify_anchor produces is made of lower-case word characters
      and single inner dashes. */
  lemma SlugifyIsSlug(text: string)
    ensures IsSlug(Slugify(text))
  {
    var d := DashedText(text);
    SlugOfDashed(d);
    assert Slugify(text) == StripChar(d, '-');
  }

  lemma SlugOfDashed(d: string)
    requires forall i :: 0 <= i < |d| ==> IsSlugChar(d[i])
    requires forall i :: 0 <= i < |d| - 1 ==> !(IsDash(d[i]) && IsDash(d[i + 1]))
    ensures IsSlug(StripChar(d, '-'))
  {
    var a, b := StripCharInner(d, '-');
    SlugOfInner(d, a, b);
    var r := StripChar(d, '-');
    assert r == d[a..b];
    assert r == [] || (r[0] != '-' && r[|r| - 1] != '-');
  }

  /** Before the final strip('-'): slug characters with no two dashes together. */
  lemma DashedText(text: string) returns (d: string)
    ensures d == CollapseDashes(SpacesToDash(Filter(Lower(Strip(text)), KeptChar)))
    ensures forall i :: 0 <= i < |d| ==> IsSlugChar(d[i])
    ensures forall i :: 0 <= i < |d| - 1 ==> !(IsDash(d[i]) && IsDash(d[i + 1]))
  {
    var f := Filter(Lower(Strip(text)), KeptChar);
    LoweredKept(Strip(text));
    CollapseRunsChars(f, IsSpace, '-', IsSlugChar);
    var sd := SpacesToDash(f);
    CollapseRunsChars(sd, IsDash, '-', IsSlugChar);
    CollapseRunsNoDoubles(sd, IsDash, '-');
    d := CollapseDashes(sd);
  }

  // ---------------------------------------------------------------------------
  // Idempotence

  lemma LowerOfSlug(s: string)
    requires forall i :: 0 <= i < |s| ==> IsSlugChar(s[i])
    ensures Lower(s) == s
  {
  }

  /** A slug is its own slug, so slugging twice changes nothing. */
  lemma SlugOfSlug(s: string)
    requires IsSlug(s)
    ensures Slugify(s) == s
  {
    assert IsStripped(s);
    StripOfStripped(s);
    LowerOfSlug(s);
    FilterAll(s, KeptChar);
    SpacesToDashOfSlug(s);
    CollapseDashesOfSlug(s);
  }

  lemma SpacesToDashOfSlug(s: string)
    requires forall i :: 0 <= i < |s| ==> IsSlugChar(s[i])
    ensures SpacesToDash(s) == s
  {
    CollapseRunsId(s, IsSpace, '-');
  }

  lemma CollapseDashesOfSlug(s: string)
    requires forall i :: 0 <= i < |s| - 1 ==> !(s[i] == '-' && s[i + 1] == '-')
    ensures CollapseDashes(s) == s
  {
    CollapseRunsId(s, IsDash, '-');
  }

  lemma SlugifyIdempotent(text: string)
    ensures Slugify(Slugify(text)) == Slugify(text)
  {
    SlugifyIsSlug(text);
    SlugOfSlug(Slugify(text));
  }

  // ---------------------------------------------------------------------------
  // The word characters survive in order

  lemma WordsOfLowerStrip(t: string)
    ensures Filter(Lower(Strip(t)), IsWordChar) == Filter(Lower(t), IsWordChar)
  {
    var a, b := StripSlice(t);
    assert Lower(Strip(t)) == Lower(t)[a..b];
    WordsOfInner(Lower(t), a, b);
  }

  lemma {:induction false} WordsOfKept(s: string)
    ensures Filter(Filter(s, KeptChar), IsWordChar) == Filter(s, IsWordChar)
  {
    if s != [] {
      WordsOfKept(s[1..]);
      var x := s[0];
      FilterConcat(if KeptChar(x) then [x] else [], Filter(s[1..], KeptChar), IsWordChar);
      assert [x][1..] == [];
    }
  }

  lemma SpaceIsNotWord()
    ensures forall c :: IsSpace(c) ==> !IsWordChar(c)
  {
  }

  lemma WordsOfSpacesToDash(s: string)
    ensures Filter(SpacesToDash(s), IsWordChar) == Filter(s, IsWordChar)
  {
    SpaceIsNotWord();
    CollapseRunsWords(s, IsSpace, '-');
  }

  lemma WordsOfCollapseDashes(s: string)
    ensures Filter(CollapseDashes(s), IsWordChar) == Filter(s, IsWordChar)
  {
    CollapseRunsWords(s, IsDash, '-');
  }

  /** The slug keeps exactly the (lower-cased) word characters of the text, in order;
      everything else it holds is dashes. */
  lemma SlugifyKeepsWords(text: string)
    ensures Filter(Slugify(text), IsWordChar) == Filter(Lower(text), IsWordChar)
  {
    var f := Filter(Lower(Strip(text)), KeptChar);
    var d := CollapseDashes(SpacesToDash(f));
    assert Slugify(text) == StripChar(d, '-');
    WordsOfStripDashes(d);
    WordsOfCollapseDashes(SpacesToDash(f));
    WordsOfSpacesToDash(f);
    WordsOfKept(Lower(Strip(text)));
    WordsOfLowerStrip(text);
  }

  /** A text with a letter, digit or '_' has a non-empty slug. */
  lemma SlugifyNonEmpty(text: string, i: nat)
    requires i < |text| && IsWordChar(Lower(text)[i])
    ensures Slugify(text) != ""
  {
    SlugifyKeepsWords(text);
    FilterMembers(Lower(text), IsWordChar, Lower(text)[i]);
  }

  lemma WordsOfStripDashes(d: string)
    ensures Filter(StripChar(d, '-'), IsWordChar) == Filter(d, IsWordChar)
  {
    var a, b := StripCharInner(d, '-');
    WordsOfInner(d, a, b);
  }

  // ---------------------------------------------------------------------------
  // _append_anchor

  /** The last " > " segment of a section path, trimmed. */
  function LastSection(sectionPath: string): string {
    var parts := Split(sectionPath, " > ");
    Strip(parts[|parts| - 1])
  }

  /** _append_anchor: an empty URL or one that already has '#' is kept; otherwise the
      slug of the last section is added as the fragment, unless it is empty. */
  function AppendAnchor(url: string, sectionPath: string): string {
    if url == "" || Contains(url, "#") then url
    else
      var anchor := Slugify(LastSection(sectionPath));
      if anchor == "" then url else url + "#" + anchor
  }

  /** The three outcomes of _append_anchor. */
  lemma AppendAnchorCases(url: string, sectionPath: string)
    ensures url == "" || Contains(url, "#") ==> AppendAnchor(url, sectionPath) == url
    ensures url != "" && !Contains(url, "#") && Slugify(LastSection(sectionPath)) == "" ==>
      AppendAnchor(url, sectionPath) == url
    ensures url != "" && !Contains(url, "#") && Slugify(LastSection(sectionPath)) != "" ==>
      AppendAnchor(url, sectionPath) == url + "#" + Slugify(LastSection(sectionPath))
  {
  }

  /** The part before the first '#'. */
  function BeforeHash(s: string): string {
    match IndexOf(s, "#")
    case None => s
    case Some(i) => s[..i]
  }

  lemma {:induction false} NoHashLacks(url: string)
    requires !Contains(url, "#")
    ensures Lacks(url, '#')
    decreases |url|
  {
    if url != [] {
      assert url[..1] == [url[0]];
      NoHashLacks(url[1..]);
      assert forall j :: 1 <= j < |url| ==> url[j] == url[1..][j - 1];
    }
  }

  /** Cutting the fragment off gives the URL back, and the fragment is a slug. */
  lemma AppendAnchorRoundTrip(url: string, sectionPath: string)
    requires !Contains(url, "#")
    ensures BeforeHash(AppendAnchor(url, sectionPath)) == url
    ensures AppendAnchor(url, sectionPath) == url ||
      (AppendAnchor(url, sectionPath) == url + "#" + Slugify(LastSection(sectionPath)) &&
       IsSlug(Slugify(LastSection(sectionPath))))
  {
    NoHashLacks(url);
    SlugifyIsSlug(LastSection(sectionPath));
    var r := AppendAnchor(url, sectionPath);
    if r != url {
      var anchor := Slugify(LastSection(sectionPath));
      assert r == url + ['#'] + anchor;
      IndexOfFirst(url, '#', anchor);
      assert r[..|url|] == url;
    } else {
      NoCharNoIndex(url, "#");
    }
  }

  /** Anchoring an anchored URL with the same section path changes nothing. */
  lemma AppendAnchorIdempotent(url: string, sectionPath: string)
    ensures AppendAnchor(AppendAnchor(url, sectionPath), sectionPath) == AppendAnchor(url, sectionPath)
  {
    var r := AppendAnchor(url, sectionPath);
    if r != url {
      ContainsAt(r, "#", |url|);
    }
  }
}
