/**
 * The content materializer, `InlineDirective.contents`: the optional opening
 * fence, the selected lines of the source file as `islice` yields them, and
 * the optional closing fence.
 */
module Materializer {
  import opened Wrappers
  import opened Text
  import opened Comments
  import opened Directives

  /** sys.maxsize on a 64-bit CPython: the largest index islice accepts. */
  const MaxSize: int := 0x7FFF_FFFF_FFFF_FFFF

  /** What `islice(lines, lo, hi)` yields, walking the file one line at a time:
      the first `lo` lines are dropped, and reading stops once `hi` lines (all
      of them when `hi` is None) have been read. */
  function Islice(lines: seq<string>, lo: nat, hi: Option<nat>): seq<string>
    decreases |lines|
  {
    if lines == [] || hi == Some(0) then []
    else
      var next: Option<nat> := if hi.Some? then Some(hi.value - 1) else None;
      if lo > 0 then Islice(lines[1..], lo - 1, next)
      else [lines[0]] + Islice(lines[1..], 0, next)
  }

  function Min(a: int, b: int): int { if a <= b then a else b }

  /** islice keeps the lines with 0-based index in [lo, hi), clipped to the file. */
  lemma {:induction false} IsliceWindow(lines: seq<string>, lo: nat, hi: Option<nat>)
    ensures var stop := if hi.Some? then Min(hi.value, |lines|) else |lines|;
      && |Islice(lines, lo, hi)| == (if lo < stop then stop - lo else 0)
      && forall i :: 0 <= i < |Islice(lines, lo, hi)| ==> Islice(lines, lo, hi)[i] == lines[lo + i]
    decreases |lines|
  {
    if lines == [] || hi == Some(0) {
    } else {
      var next: Option<nat> := if hi.Some? then Some(hi.value - 1) else None;
      IsliceWindow(lines[1..], if lo > 0 then lo - 1 else 0, next);
    }
  }

  /** The integer arguments islice accepts: start - 1 and end in [0, sys.maxsize]. */
  predicate SliceOk(spec: Spec) {
    && (spec.start.None? || 1 <= spec.start.value <= MaxSize + 1)
    && (spec.end.None? || 0 <= spec.end.value <= MaxSize)
  }

  /** The body lines of a directive: `islice(file, start - 1, end)`. */
  function Body(spec: Spec, lines: seq<string>): seq<string>
    requires SliceOk(spec)
  {
    var lo: nat := if spec.start.Some? then spec.start.value - 1 else 0;
    var hi: Option<nat> := if spec.end.Some? then Some(spec.end.value) else None;
    Islice(lines, lo, hi)
  }

  /** The first line of a directive's start/end window (1 by default). */
  function FirstLine(spec: Spec): int {
    if spec.start.Some? then spec.start.value else 1
  }

  /** The last line of the window actually present in a file of `n` lines. */
  function LastLine(spec: Spec, n: nat): int {
    if spec.end.Some? then Min(spec.end.value, n) else n
  }

  /** The body is exactly source lines S..min(E, N), 1-based and inclusive, and
      empty when S > min(E, N). */
  lemma BodyBounds(spec: Spec, lines: seq<string>)
    requires SliceOk(spec)
    ensures var s, e := FirstLine(spec), LastLine(spec, |lines|);
      && |Body(spec, lines)| == (if s <= e then e - s + 1 else 0)
      && forall i :: 0 <= i < |Body(spec, lines)| ==> Body(spec, lines)[i] == lines[s - 1 + i]
  {
    var lo: nat := if spec.start.Some? then spec.start.value - 1 else 0;
    var hi: Option<nat> := if spec.end.Some? then Some(spec.end.value) else None;
    IsliceWindow(lines, lo, hi);
  }

  /** The opening fence: three backticks, the language if any, a newline. */
  function Fence(lang: Option<string>): string {
    "```" + (if lang.Some? then lang.value else "") + "\n"
  }

  const CloseFence: string := "```\n"

  /** Lines produced so far, and the exception that stopped production, if any. */
  datatype Emission = Emission(lines: seq<string>, failure: Option<Failure>)

  /** `InlineDirective.contents()`. The opening fence is yielded before the file
      is sliced, so a bad start or end stops the generator after it. */
  function Contents(spec: Spec, fs: FileSystem): Emission
    requires spec.source in fs && fs[spec.source].Readable?
  {
    var open := if spec.verbatim then [Fence(spec.lang)] else [];
    if !SliceOk(spec) then Emission(open, Some(SliceIndexError))
    else
      var close := if spec.verbatim then [CloseFence] else [];
      Emission(open + Body(spec, fs[spec.source].lines) + close, None)
  }

  /** What a directive expands to: the fence when verbatim, then source lines
      S..min(E, N), then the closing fence when verbatim; or, for a start or an
      end islice rejects (S - 1 or E outside 0..sys.maxsize), only the opening
      fence and the ValueError. */
  lemma ContentsLines(spec: Spec, fs: FileSystem)
    requires spec.source in fs && fs[spec.source].Readable?
    ensures var r, file := Contents(spec, fs), fs[spec.source].lines;
      var off := if spec.verbatim then 1 else 0;
      var s, e := FirstLine(spec), LastLine(spec, |file|);
      var count := if s <= e then e - s + 1 else 0;
      && (r.failure.None? <==> SliceOk(spec))
      && (r.failure.Some? ==> r.failure == Some(SliceIndexError) && |r.lines| == off)
      && (r.failure.None? ==> |r.lines| == count + 2 * off)
      && (r.failure.None? ==> forall i :: off <= i < off + count ==> r.lines[i] == file[s - 1 + i - off])
      && (spec.verbatim ==> r.lines[0] == Fence(spec.lang))
      && (spec.verbatim && r.failure.None? ==> r.lines[|r.lines| - 1] == CloseFence)
  {
    if SliceOk(spec) {
      BodyBounds(spec, fs[spec.source].lines);
    }
  }

  /** Fence lines are never mistaken for directives. */
  lemma FencesArePlain(lang: Option<string>)
    ensures Classify(Fence(lang)) == Plain && Classify(CloseFence) == Plain
  {
    PlainUnlessComment(Fence(lang));
    PlainUnlessComment(CloseFence);
  }
}
