/**
 * Recognising directive lines: the single-line HTML comment extractor
 * (`COMMENT_RE` and `extract_line_comment`) and the classification of the
 * comment text as an opening tag, a closing tag or neither.
 */
module Comments {
  import opened Wrappers
  import opened Text

  const CommentOpen := "<!--"
  const CommentClose := "-->"

  /** No comment terminator starts before index `n` of `s`. */
  predicate NoCloserBefore(s: string, n: int) {
    forall j :: 0 <= j < n ==> !ClosesAt(s, j)
  }

  /** The conditions under which `lead + "<!--" + w2 + g + w3 + "-->" + rest`
      is a comment line with inner text `g`: whitespace around, `g` trimmed and
      on one line, and no earlier `-->` after the opener. */
  predicate WellShaped(lead: string, w2: string, g: string, w3: string) {
    && AllSpace(lead) && AllSpace(w2) && AllSpace(w3)
    && Trimmed(g) && '\n' !in g
    && NoCloserBefore(w2 + g + w3 + CommentClose, |w2| + |g| + |w3|)
  }

  /** The match of `^\s*<!--\s*(.*?)\s*-->` at the start of the line: the text
      between the opener and the first terminator after it, trimmed; None when
      the line does not start (after whitespace) with `<!--`, has no `-->`
      after it, or the lazy group would have to cross a newline. */
  function ExtractLineComment(line: string): (r: Option<string>)
    ensures r.Some? ==> Trimmed(r.value) && '\n' !in r.value
    ensures r.Some? ==> NoCloserBefore(r.value, |r.value|)
  {
    var p0 := SkipSpace(line, 0);
    if !(CommentOpen <= line[p0..]) then None
    else
      var p := SkipSpace(line, p0 + 4);
      match FindCloser(line, p)
      case None => None
      case Some(k) =>
        var g := TrimEnd(line[p..k]);
        GroupFacts(line, p, k);
        if '\n' in g then None else Some(g)
  }

  /** The lazy group: from the first non-blank character after the opener up
      to the first terminator, without its trailing whitespace. */
  lemma GroupFacts(line: string, p: nat, k: nat)
    requires p <= k <= |line| && (p < |line| ==> !IsSpace(line[p]))
    requires forall j :: p <= j < k ==> !ClosesAt(line, j)
    ensures Trimmed(TrimEnd(line[p..k])) && NoCloserBefore(TrimEnd(line[p..k]), |TrimEnd(line[p..k])|)
  {
    var g := TrimEnd(line[p..k]);
    assert forall j :: 0 <= j < |g| ==> g[j] == line[p + j];
    assert g != [] ==> g[0] == line[p];
    forall j | 0 <= j < |g| ensures !ClosesAt(g, j) {
      if j + 3 <= |g| {
        assert g[j] == line[p + j] && g[j + 1] == line[p + j + 1] && g[j + 2] == line[p + j + 2];
        assert !ClosesAt(line, p + j);
      }
    }
  }

  lemma SkipSpaceAt(s: string, i: nat, j: nat)
    requires i <= j <= |s|
    requires forall k :: i <= k < j ==> IsSpace(s[k])
    requires j < |s| ==> !IsSpace(s[j])
    ensures SkipSpace(s, i) == j
  {
  }

  lemma FindCloserAt(s: string, i: nat, k: nat)
    requires i <= k && ClosesAt(s, k)
    requires forall j :: i <= j < k ==> !ClosesAt(s, j)
    ensures FindCloser(s, i) == Some(k)
  {
  }

  lemma TrimEndAround(g: string, w: string)
    requires Trimmed(g) && AllSpace(w)
    ensures TrimEnd(g + w) == g
  {
    var r := TrimEnd(g + w);
    if g != [] {
      assert (g + w)[|g| - 1] == g[|g| - 1];
    }
    assert |r| == |g|;
    assert r == (g + w)[..|r|];
  }

  /** `mid` is `w2 + g + w3 + "-->"`, stated index by index. */
  predicate MidOf(mid: string, w2: string, g: string, w3: string) {
    && |mid| == |w2| + |g| + |w3| + 3
    && (forall j :: 0 <= j < |w2| ==> mid[j] == w2[j])
    && (forall j :: 0 <= j < |g| ==> mid[|w2| + j] == g[j])
    && (forall j :: 0 <= j < |w3| ==> mid[|w2| + |g| + j] == w3[j])
    && ClosesAt(mid, |w2| + |g| + |w3|)
  }

  /** `line` is `lead + "<!--" + mid + rest` with whitespace `lead` of length `a`,
      stated index by index. */
  predicate LineOf(line: string, a: nat, mid: string) {
    && a + 4 + |mid| <= |line|
    && (forall j :: 0 <= j < a ==> IsSpace(line[j]))
    && line[a..][..4] == CommentOpen
    && (forall j :: 0 <= j < |mid| ==> line[a + 4 + j] == mid[j])
  }

  lemma Layout(lead: string, w2: string, g: string, w3: string, rest: string) returns (mid: string)
    requires AllSpace(lead)
    ensures MidOf(mid, w2, g, w3) && mid == w2 + g + w3 + CommentClose
    ensures LineOf(lead + CommentOpen + w2 + g + w3 + CommentClose + rest, |lead|, mid)
  {
    mid := w2 + g + w3 + CommentClose;
    var line := lead + CommentOpen + w2 + g + w3 + CommentClose + rest;
    assert line == lead + CommentOpen + mid + rest;
  }

  /** The extractor, read off the positions its steps compute. */
  lemma ExtractFromPositions(line: string, a: nat, p: nat, k: nat, g: string)
    requires a + 4 <= |line| && SkipSpace(line, 0) == a && line[a..][..4] == CommentOpen
    requires SkipSpace(line, a + 4) == p && p <= k <= |line| && FindCloser(line, p) == Some(k)
    requires TrimEnd(line[p..k]) == g && '\n' !in g
    ensures ExtractLineComment(line) == Some(g)
  {
  }

  /** The whitespace run after the opener ends where the inner text starts. */
  lemma InnerStart(line: string, p1: nat, w2: string, g: string, w3: string, mid: string) returns (p: nat)
    requires AllSpace(w2) && AllSpace(w3) && Trimmed(g)
    requires MidOf(mid, w2, g, w3) && p1 + |mid| <= |line|
    requires forall j :: 0 <= j < |mid| ==> line[p1 + j] == mid[j]
    ensures p == (if g == [] then p1 + |w2| + |w3| else p1 + |w2|)
    ensures SkipSpace(line, p1) == p
  {
    p := if g == [] then p1 + |w2| + |w3| else p1 + |w2|;
    forall j | p1 <= j < p ensures IsSpace(line[j]) {
      assert line[j] == mid[j - p1];
      if j - p1 < |w2| { assert mid[j - p1] == w2[j - p1]; }
      else { assert mid[j - p1] == mid[|w2| + |g| + (j - p1 - |w2|)] == w3[j - p1 - |w2|]; }
    }
    if g == [] {
      assert line[p] == mid[p - p1] == '-';
    } else {
      assert line[p] == mid[|w2| + 0] == g[0];
    }
    SkipSpaceAt(line, p1, p);
  }

  /** The first terminator after the inner text's start is the one after `w3`. */
  lemma InnerEnd(line: string, p1: nat, p: nat, mid: string, n: nat, k: nat)
    requires |mid| == n + 3 && ClosesAt(mid, n) && NoCloserBefore(mid, n)
    requires p1 <= p <= p1 + n && p1 + |mid| <= |line| && k == p1 + n
    requires forall j :: 0 <= j < |mid| ==> line[p1 + j] == mid[j]
    ensures FindCloser(line, p) == Some(k)
  {
    assert line[k] == mid[n] && line[k + 1] == mid[n + 1] && line[k + 2] == mid[n + 2];
    forall j | p <= j < k ensures !ClosesAt(line, j) {
      var i := j - p1;
      assert line[j] == mid[i] && line[j + 1] == mid[i + 1] && line[j + 2] == mid[i + 2];
      assert !ClosesAt(mid, i);
    }
    FindCloserAt(line, p, k);
  }

  /** The text between the inner start and the terminator, trimmed, is `g`. */
  lemma InnerBody(line: string, p1: nat, p: nat, w2: string, g: string, w3: string, mid: string, k: nat)
    requires AllSpace(w3) && Trimmed(g)
    requires MidOf(mid, w2, g, w3) && p1 + |mid| <= |line|
    requires forall j :: 0 <= j < |mid| ==> line[p1 + j] == mid[j]
    requires p == (if g == [] then p1 + |w2| + |w3| else p1 + |w2|)
    requires k == p1 + |w2| + |g| + |w3|
    ensures p <= k && TrimEnd(line[p..k]) == g
  {
    var body := line[p..k];
    if g == [] {
      assert body == [];
    } else {
      assert body == g + w3 by {
        forall j | 0 <= j < |body| ensures body[j] == (g + w3)[j] {
          if j < |g| { assert body[j] == mid[|w2| + j]; }
          else { assert body[j] == mid[|w2| + |g| + (j - |g|)]; }
        }
      }
      TrimEndAround(g, w3);
    }
  }

  /** The positions the extractor computes on a line given index by index. */
  lemma LayoutPositions(line: string, a: nat, w2: string, g: string, w3: string, mid: string)
      returns (p: nat, k: nat)
    requires AllSpace(w2) && AllSpace(w3) && Trimmed(g)
    requires MidOf(mid, w2, g, w3) && NoCloserBefore(mid, |w2| + |g| + |w3|)
    requires LineOf(line, a, mid)
    ensures a + 4 <= |line| && SkipSpace(line, 0) == a && line[a..][..4] == CommentOpen
    ensures SkipSpace(line, a + 4) == p && p <= k <= |line| && FindCloser(line, p) == Some(k)
    ensures TrimEnd(line[p..k]) == g
  {
    k := a + 4 + |w2| + |g| + |w3|;
    SkipSpaceAt(line, 0, a);
    p := InnerStart(line, a + 4, w2, g, w3, mid);
    InnerEnd(line, a + 4, p, mid, |w2| + |g| + |w3|, k);
    InnerBody(line, a + 4, p, w2, g, w3, mid, k);
  }

  /** Every well-shaped comment line yields exactly its inner text. */
  lemma ExtractExact(lead: string, w2: string, g: string, w3: string, rest: string)
    requires WellShaped(lead, w2, g, w3)
    ensures ExtractLineComment(lead + CommentOpen + w2 + g + w3 + CommentClose + rest) == Some(g)
  {
    var mid := Layout(lead, w2, g, w3, rest);
    var line := lead + CommentOpen + w2 + g + w3 + CommentClose + rest;
    var p, k := LayoutPositions(line, |lead|, w2, g, w3, mid);
    ExtractFromPositions(line, |lead|, p, k, g);
  }

  /** Conversely, every extracted text comes from a well-shaped comment line. */
  lemma ExtractShape(line: string) returns (lead: string, w2: string, w3: string, rest: string)
    requires ExtractLineComment(line).Some?
    ensures var g := ExtractLineComment(line).value;
      && WellShaped(lead, w2, g, w3)
      && line == lead + CommentOpen + w2 + g + w3 + CommentClose + rest
  {
    var g := ExtractLineComment(line).value;
    var p0, p, k := ExtractPositions(line);
    var q := p + |g|;
    TrimTail(line, p, k, g);
    lead, w2, w3, rest := line[..p0], line[p0 + 4..p], line[q..k], line[k + 3..];
    SpaceRun(line, 0, p0);
    assert lead == line[0..p0];
    SpaceRun(line, p0 + 4, p);
    SplitParts(line, p0, p, q, k, g);
    NoCloserInside(line, p0 + 4, p, k);
    assert WellShaped(lead, w2, g, w3);
  }

  /** The positions the extractor computes on a line it accepts. */
  lemma ExtractPositions(line: string) returns (p0: nat, p: nat, k: nat)
    requires ExtractLineComment(line).Some?
    ensures p0 + 4 <= p <= k && k + 3 <= |line|
    ensures line[p0..p0 + 4] == CommentOpen && line[k..k + 3] == CommentClose
    ensures SkipSpace(line, 0) == p0 && SkipSpace(line, p0 + 4) == p
    ensures forall j :: p <= j < k ==> !ClosesAt(line, j)
    ensures TrimEnd(line[p..k]) == ExtractLineComment(line).value
    ensures Trimmed(ExtractLineComment(line).value) && '\n' !in ExtractLineComment(line).value
  {
    p0 := SkipSpace(line, 0);
    p := SkipSpace(line, p0 + 4);
    k := FindCloser(line, p).value;
    assert line[p0..][..4] == line[p0..p0 + 4];
  }

  /** A whitespace run skipped by `SkipSpace` is all whitespace. */
  lemma SpaceRun(s: string, i: nat, j: nat)
    requires i <= |s| && SkipSpace(s, i) == j
    ensures AllSpace(s[i..j])
  {
    forall m | 0 <= m < j - i ensures IsSpace(s[i..j][m]) {
      assert s[i..j][m] == s[i + m];
    }
  }

  /** `TrimEnd(line[p..k]) == g` splits `line[p..k]` into `g` and whitespace. */
  lemma TrimTail(line: string, p: nat, k: nat, g: string)
    requires p <= k <= |line| && TrimEnd(line[p..k]) == g
    ensures p + |g| <= k && line[p..p + |g|] == g && AllSpace(line[p + |g|..k])
  {
    var s := line[p..k];
    assert g <= s;
    assert line[p..p + |g|] == s[..|g|];
    var w := line[p + |g|..k];
    forall m | 0 <= m < |w| ensures IsSpace(w[m]) {
      assert w[m] == s[|g| + m];
    }
  }

  /** A line cut at the positions the extractor computes. */
  lemma SplitParts(line: string, p0: nat, p: nat, q: nat, k: nat, g: string)
    requires p0 + 4 <= p <= q <= k && k + 3 <= |line|
    requires line[p0..p0 + 4] == CommentOpen && line[p..q] == g && line[k..k + 3] == CommentClose
    ensures line == line[..p0] + CommentOpen + line[p0 + 4..p] + g + line[q..k] + CommentClose + line[k + 3..]
    ensures line[p0 + 4..k + 3] == line[p0 + 4..p] + g + line[q..k] + CommentClose
  {
    assert line == line[..p0] + line[p0..p0 + 4] + line[p0 + 4..p] + line[p..q] + line[q..k]
                  + line[k..k + 3] + line[k + 3..];
    assert line[p0 + 4..k + 3] == line[p0 + 4..p] + line[p..q] + line[q..k] + line[k..k + 3];
  }

  /** No terminator starts in `line[i..k]` when none starts in its leading
      whitespace `line[i..p]` (which holds no `-`) and none in `line[p..k]`. */
  lemma NoCloserInside(line: string, i: nat, p: nat, k: nat)
    requires i <= p <= k && k + 3 <= |line|
    requires forall j :: i <= j < p ==> IsSpace(line[j])
    requires forall j :: p <= j < k ==> !ClosesAt(line, j)
    ensures NoCloserBefore(line[i..k + 3], k - i)
  {
    var mid := line[i..k + 3];
    forall j | 0 <= j < k - i ensures !ClosesAt(mid, j) {
      assert mid[j] == line[i + j] && mid[j + 1] == line[i + j + 1] && mid[j + 2] == line[i + j + 2];
      if i + j < p { assert IsSpace(line[i + j]); } else { assert !ClosesAt(line, i + j); }
    }
  }

  datatype Tag = InlineTag | PythonTag

  /** The tag name as the markup parser reports it. */
  function TagName(tag: Tag): string {
    match tag
    case InlineTag => "inline"
    case PythonTag => "python"
  }

  /** How `parse_directive` reads a line before looking at attributes. */
  datatype LineKind = Plain | Opener(tag: Tag, text: string) | Closer

  /** The inner text opens a directive only when it starts with `<inline ` or
      `<python ` (a literal space after the name), and closes one only when it
      is exactly `</inline>` or `</python>`. */
  function KindOf(text: string): LineKind {
    if "<inline " <= text then Opener(InlineTag, text)
    else if "<python " <= text then Opener(PythonTag, text)
    else if text == "</inline>" || text == "</python>" then Closer
    else Plain
  }

  /** The two tests of `parse_directive` on the inner text: it opens exactly
      when it starts with `<inline ` or `<python `, naming that tag, and closes
      exactly when it is `</inline>` or `</python>`. */
  lemma KindOfCases(text: string)
    ensures KindOf(text).Opener? <==> "<inline " <= text || "<python " <= text
    ensures KindOf(text).Opener? ==> KindOf(text).text == text
    ensures KindOf(text).Opener? ==> (KindOf(text).tag == PythonTag <==> "<python " <= text)
    ensures KindOf(text).Closer? <==> text == "</inline>" || text == "</python>"
  {
    if "<inline " <= text || "<python " <= text {
      assert text[1] != '/';
      assert "<inline " <= text ==> text[1] == 'i';
      assert "<python " <= text ==> text[1] == 'p';
    }
  }

  function Classify(line: string): LineKind {
    match ExtractLineComment(line)
    case None => Plain
    case Some(text) => KindOf(text)
  }

  /** A line whose first character is neither whitespace nor `<` is never a
      directive (fence lines and ordinary prose among them). */
  lemma PlainUnlessComment(line: string)
    requires line != [] && !IsSpace(line[0]) && line[0] != '<'
    ensures Classify(line) == Plain
  {
    assert SkipSpace(line, 0) == 0;
  }

  /** A well-shaped comment line is classified by its inner text alone. */
  lemma ClassifyShaped(lead: string, w2: string, g: string, w3: string, rest: string)
    requires WellShaped(lead, w2, g, w3)
    ensures Classify(lead + CommentOpen + w2 + g + w3 + CommentClose + rest) == KindOf(g)
  {
    ExtractExact(lead, w2, g, w3, rest);
  }
}
