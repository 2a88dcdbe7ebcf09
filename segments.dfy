/**
 * A reference definition of what the generator does to a whole document that
 * it accepts: the document is a run of plain lines, stray closing lines and
 * blocks (an opening line, the stale lines up to the closing line, and the
 * closing line); each renders independently. From it follow the replacement
 * of old content and the idempotence of transforming and cleaning.
 */
module Segments {
  import opened Wrappers
  import opened Comments
  import opened Directives
  import opened Materializer
  import opened Transformer

  datatype Segment =
    | Text(line: string)
    | Stray(line: string)
    | Block(opener: string, stale: seq<string>, closer: string)

  function Lines(s: Segment): seq<string> {
    match s
    case Text(l) => [l]
    case Stray(l) => [l]
    case Block(o, st, c) => [o] + st + [c]
  }

  function Flatten(segs: seq<Segment>): seq<string>
    decreases |segs|
  {
    if segs == [] then [] else Flatten(segs[..|segs| - 1]) + Lines(segs[|segs| - 1])
  }

  predicate AllPlain(lines: seq<string>) {
    forall i :: 0 <= i < |lines| ==> Classify(lines[i]).Plain?
  }

  /** A segment the generator reads as one unit and without error: a plain
      line, a closing line, or an accepted opening line followed by plain
      lines and a closing line (whose start and end islice accepts, when the
      contents are generated). */
  predicate Sound(s: Segment, clean: bool, env: Env) {
    match s
    case Text(l) => Classify(l).Plain?
    case Stray(l) => Classify(l).Closer?
    case Block(o, st, c) =>
      && ReadDirective(o, env).Opens?
      && (clean || SliceOk(ReadDirective(o, env).spec))
      && AllPlain(st)
      && Classify(c).Closer?
  }

  predicate AllSound(segs: seq<Segment>, clean: bool, env: Env) {
    forall i :: 0 <= i < |segs| ==> Sound(segs[i], clean, env)
  }

  /** What a sound segment turns into: a plain line is copied, a stray closing
      line is copied twice, and a block keeps its two directive lines with the
      directive's contents (nothing, in clean mode) in place of its stale lines. */
  function Render(s: Segment, clean: bool, env: Env): seq<string>
    requires Sound(s, clean, env)
  {
    match s
    case Text(l) => [l]
    case Stray(l) => [l, l]
    case Block(o, st, c) =>
      [o] + (if clean then [] else Contents(ReadDirective(o, env).spec, env.fs).lines) + [c]
  }

  function RenderAll(segs: seq<Segment>, clean: bool, env: Env): seq<string>
    requires AllSound(segs, clean, env)
    decreases |segs|
  {
    if segs == [] then []
    else RenderAll(segs[..|segs| - 1], clean, env) + Render(segs[|segs| - 1], clean, env)
  }

  /** The five moves of `Step` that a sound document uses. */
  lemma StepText(p: Progress, l: string, lineno: nat, clean: bool, env: Env)
    requires p.failure.None? && p.state.Idle? && Classify(l).Plain?
    ensures Step(p, l, lineno, clean, env) == Progress(p.out + [l], Idle, None)
  {
  }

  lemma StepStray(p: Progress, l: string, lineno: nat, clean: bool, env: Env)
    requires p.failure.None? && p.state.Idle? && Classify(l).Closer?
    ensures Step(p, l, lineno, clean, env) == Progress(p.out + [l, l], Idle, None)
  {
  }

  lemma StepOpener(p: Progress, o: string, lineno: nat, clean: bool, env: Env)
    requires p.failure.None? && p.state.Idle? && ReadDirective(o, env).Opens?
    ensures var spec := ReadDirective(o, env).spec;
      Step(p, o, lineno, clean, env)
        == Progress(p.out + [o] + (if clean then [] else Contents(spec, env.fs).lines),
                    Open(InlineDirective(lineno, o, spec)),
                    if clean then None else Contents(spec, env.fs).failure)
  {
  }

  lemma StepStale(p: Progress, l: string, lineno: nat, clean: bool, env: Env)
    requires p.failure.None? && p.state.Open? && Classify(l).Plain?
    ensures Step(p, l, lineno, clean, env) == p
  {
  }

  lemma StepCloser(p: Progress, c: string, lineno: nat, clean: bool, env: Env)
    requires p.failure.None? && p.state.Open? && Classify(c).Closer?
    ensures Step(p, c, lineno, clean, env) == Progress(p.out + [c], Idle, None)
  {
  }

  /** Plain lines read while a directive is open change nothing. */
  lemma {:induction false} FeedStale(p: Progress, st: seq<string>, base: nat, clean: bool, env: Env)
    requires p.failure.None? && p.state.Open? && AllPlain(st)
    ensures Feed(p, st, base, clean, env) == p
    decreases |st|
  {
    if st != [] {
      FeedStale(p, st[..|st| - 1], base, clean, env);
      StepStale(p, st[|st| - 1], base + |st|, clean, env);
    }
  }

  lemma FeedOne(p: Progress, line: string, base: nat, clean: bool, env: Env)
    ensures Feed(p, [line], base, clean, env) == Step(p, line, base + 1, clean, env)
  {
    assert [line][..0] == [];
  }

  lemma Regroup(a: seq<string>, b: seq<string>, c: seq<string>, d: seq<string>)
    ensures a + b + c + d == a + (b + c + d)
  {
  }

  /** Reading `y` after `x` continues from where `x` left off. */
  lemma FeedThen(p: Progress, x: seq<string>, y: seq<string>, base: nat, clean: bool, env: Env, q: Progress)
    requires Feed(p, x, base, clean, env) == q
    ensures Feed(p, x + y, base, clean, env) == Feed(q, y, base + |x|, clean, env)
  {
    FeedAppend(p, x, y, base, clean, env);
  }

  lemma ScanThen(x: seq<string>, y: seq<string>, clean: bool, env: Env, q: Progress)
    requires Scan(x, clean, env) == q
    ensures Scan(x + y, clean, env) == Feed(q, y, |x|, clean, env)
  {
    FeedAppend(Start, x, y, 0, clean, env);
  }

  /** Reading one more line is one more `Step`. */
  lemma FeedSnoc(p: Progress, x: seq<string>, line: string, base: nat, clean: bool, env: Env, q: Progress)
    requires Feed(p, x, base, clean, env) == q
    ensures Feed(p, x + [line], base, clean, env) == Step(q, line, base + |x| + 1, clean, env)
  {
    assert (x + [line])[..|x|] == x;
  }

  /** An opening line followed by plain lines leaves the directive open. */
  lemma FeedOpened(p: Progress, o: string, st: seq<string>, base: nat, clean: bool, env: Env, q: Progress)
    requires Step(p, o, base + 1, clean, env) == q
    requires q.failure.None? && q.state.Open? && AllPlain(st)
    ensures Feed(p, [o] + st, base, clean, env) == q
  {
    FeedOne(p, o, base, clean, env);
    FeedThen(p, [o], st, base, clean, env, q);
    FeedStale(q, st, base + 1, clean, env);
  }

  /** A sound block, read with no directive open, yields its rendering and
      leaves none open. */
  lemma FeedBlock(out: seq<string>, o: string, st: seq<string>, c: string, base: nat, clean: bool, env: Env)
    requires Sound(Block(o, st, c), clean, env)
    ensures Feed(Progress(out, Idle, None), Lines(Block(o, st, c)), base, clean, env)
         == Progress(out + Render(Block(o, st, c), clean, env), Idle, None)
  {
    var p := Progress(out, Idle, None);
    var spec := ReadDirective(o, env).spec;
    var body := if clean then [] else Contents(spec, env.fs).lines;
    var q := Progress(out + [o] + body, Open(InlineDirective(base + 1, o, spec)), None);
    StepOpener(p, o, base + 1, clean, env);
    FeedOpened(p, o, st, base, clean, env, q);
    FeedSnoc(p, [o] + st, c, base, clean, env, q);
    StepCloser(q, c, base + |[o] + st| + 1, clean, env);
    assert Feed(p, [o] + st + [c], base, clean, env) == Progress(out + [o] + body + [c], Idle, None);
    assert Render(Block(o, st, c), clean, env) == [o] + body + [c];
    Regroup(out, [o], body, [c]);
  }

  lemma FeedSegment(out: seq<string>, s: Segment, base: nat, clean: bool, env: Env)
    requires Sound(s, clean, env)
    ensures Feed(Progress(out, Idle, None), Lines(s), base, clean, env)
         == Progress(out + Render(s, clean, env), Idle, None)
  {
    match s
    case Text(l) =>
      FeedOne(Progress(out, Idle, None), l, base, clean, env);
      StepText(Progress(out, Idle, None), l, base + 1, clean, env);
    case Stray(l) =>
      FeedOne(Progress(out, Idle, None), l, base, clean, env);
      StepStray(Progress(out, Idle, None), l, base + 1, clean, env);
    case Block(o, st, c) => FeedBlock(out, o, st, c, base, clean, env);
  }

  /** Completeness of the reference definition: a document made of sound
      segments is read without error, and the output is the rendering of its
      segments one after the other. */
  lemma {:induction false} RunOfSegments(segs: seq<Segment>, clean: bool, env: Env)
    requires AllSound(segs, clean, env)
    ensures Scan(Flatten(segs), clean, env) == Progress(RenderAll(segs, clean, env), Idle, None)
    ensures Run(Flatten(segs), clean, env) == Emission(RenderAll(segs, clean, env), None)
    decreases |segs|
  {
    if segs != [] {
      var init, s := segs[..|segs| - 1], segs[|segs| - 1];
      assert AllSound(init, clean, env);
      RunOfSegments(init, clean, env);
      var x, out := Flatten(init), RenderAll(init, clean, env);
      ScanThen(x, Lines(s), clean, env, Progress(out, Idle, None));
      FeedSegment(out, s, |x|, clean, env);
      assert Flatten(segs) == x + Lines(s);
      assert RenderAll(segs, clean, env) == out + Render(s, clean, env);
    }
  }

  /** What an accepted line read with no directive open can be. */
  lemma StepFromIdle(p: Progress, line: string, lineno: nat, clean: bool, env: Env)
    requires p.failure.None? && p.state.Idle? && Step(p, line, lineno, clean, env).failure.None?
    ensures Step(p, line, lineno, clean, env).state.Idle? ==> !Classify(line).Opener?
    ensures Step(p, line, lineno, clean, env).state.Open? ==>
      ReadDirective(line, env).Opens? && (clean || SliceOk(ReadDirective(line, env).spec))
  {
  }

  /** What an accepted line read with a directive open can be. */
  lemma StepFromOpen(p: Progress, line: string, lineno: nat, clean: bool, env: Env)
    requires p.failure.None? && p.state.Open? && Step(p, line, lineno, clean, env).failure.None?
    ensures Step(p, line, lineno, clean, env).state.Open? ==> Classify(line).Plain?
    ensures Step(p, line, lineno, clean, env).state.Idle? ==> Classify(line).Closer?
  {
  }

  lemma AllSoundSnoc(segs: seq<Segment>, s: Segment, clean: bool, env: Env)
    requires AllSound(segs, clean, env) && Sound(s, clean, env)
    ensures AllSound(segs + [s], clean, env)
  {
    assert forall i :: 0 <= i < |segs| ==> (segs + [s])[i] == segs[i];
  }

  lemma FlattenSnoc(segs: seq<Segment>, s: Segment)
    ensures Flatten(segs + [s]) == Flatten(segs) + Lines(s)
  {
    assert (segs + [s])[..|segs|] == segs;
  }

  /** The shape of any prefix the generator has read without error: sound
      segments, followed, when a directive is open, by its opening line and
      the plain lines read since. */
  lemma {:induction false} ScanShape(input: seq<string>, clean: bool, env: Env)
    returns (segs: seq<Segment>, opener: string, stale: seq<string>)
    requires Scan(input, clean, env).failure.None?
    ensures AllSound(segs, clean, env)
    ensures Scan(input, clean, env).state.Idle? ==> input == Flatten(segs)
    ensures Scan(input, clean, env).state.Open? ==>
      && input == Flatten(segs) + [opener] + stale
      && ReadDirective(opener, env).Opens?
      && (clean || SliceOk(ReadDirective(opener, env).spec))
      && AllPlain(stale)
  {
    if input == [] {
      segs, opener, stale := [], [], [];
      return;
    }
    var x, line := input[..|input| - 1], input[|input| - 1];
    assert input == x + [line];
    ScanSnoc(x, line, clean, env);
    var p, q := Scan(x, clean, env), Scan(input, clean, env);
    var segs0, opener0, stale0 := ScanShape(x, clean, env);
    if p.state.Idle? {
      segs, opener, stale := ShapeFromIdle(segs0, line, p, q, clean, env);
    } else {
      segs, opener, stale := ShapeFromOpen(segs0, opener0, stale0, line, p, q, |input|, clean, env);
    }
  }

  /** ScanShape, for a line read with no directive open. */
  lemma ShapeFromIdle(segs0: seq<Segment>, line: string, p: Progress, q: Progress, clean: bool, env: Env)
    returns (segs: seq<Segment>, opener: string, stale: seq<string>)
    requires AllSound(segs0, clean, env)
    requires p.failure.None? && p.state.Idle? && q.failure.None?
    requires q == Step(p, line, |Flatten(segs0)| + 1, clean, env)
    ensures AllSound(segs, clean, env)
    ensures q.state.Idle? ==> Flatten(segs0) + [line] == Flatten(segs)
    ensures q.state.Open? ==>
      && Flatten(segs0) + [line] == Flatten(segs) + [opener] + stale
      && ReadDirective(opener, env).Opens?
      && (clean || SliceOk(ReadDirective(opener, env).spec))
      && AllPlain(stale)
  {
    StepFromIdle(p, line, |Flatten(segs0)| + 1, clean, env);
    if q.state.Idle? {
      var s := if Classify(line).Plain? then Text(line) else Stray(line);
      assert Sound(s, clean, env);
      FlattenSnoc(segs0, s);
      AllSoundSnoc(segs0, s, clean, env);
      segs, opener, stale := segs0 + [s], [], [];
    } else {
      assert Flatten(segs0) + [line] == Flatten(segs0) + [line] + [];
      segs, opener, stale := segs0, line, [];
    }
  }

  /** ScanShape, for a line read while a directive is open. */
  lemma ShapeFromOpen(segs0: seq<Segment>, opener0: string, stale0: seq<string>, line: string,
                      p: Progress, q: Progress, lineno: nat, clean: bool, env: Env)
    returns (segs: seq<Segment>, opener: string, stale: seq<string>)
    requires AllSound(segs0, clean, env) && AllPlain(stale0)
    requires ReadDirective(opener0, env).Opens? && (clean || SliceOk(ReadDirective(opener0, env).spec))
    requires p.failure.None? && p.state.Open? && q.failure.None?
    requires q == Step(p, line, lineno, clean, env)
    ensures AllSound(segs, clean, env)
    ensures q.state.Idle? ==> Flatten(segs0) + [opener0] + stale0 + [line] == Flatten(segs)
    ensures q.state.Open? ==>
      && Flatten(segs0) + [opener0] + stale0 + [line] == Flatten(segs) + [opener] + stale
      && ReadDirective(opener, env).Opens?
      && (clean || SliceOk(ReadDirective(opener, env).spec))
      && AllPlain(stale)
  {
    StepFromOpen(p, line, lineno, clean, env);
    var f := Flatten(segs0);
    if q.state.Open? {
      assert AllPlain(stale0 + [line]);
      assert f + [opener0] + stale0 + [line] == f + [opener0] + (stale0 + [line]);
      segs, opener, stale := segs0, opener0, stale0 + [line];
    } else {
      var b := Block(opener0, stale0, line);
      assert Sound(b, clean, env);
      FlattenSnoc(segs0, b);
      Regroup(f, [opener0], stale0, [line]);
      assert Flatten(segs0 + [b]) == f + ([opener0] + stale0 + [line]);
      AllSoundSnoc(segs0, b, clean, env);
      segs, opener, stale := segs0 + [b], [], [];
    }
  }

  /** Soundness of the reference definition: every document the generator
      accepts is made of sound segments, and its output is their rendering. */
  lemma Decompose(input: seq<string>, clean: bool, env: Env) returns (segs: seq<Segment>)
    requires Run(input, clean, env).failure.None?
    ensures AllSound(segs, clean, env) && Flatten(segs) == input
    ensures Run(input, clean, env).lines == RenderAll(segs, clean, env)
  {
    var opener, stale;
    segs, opener, stale := ScanShape(input, clean, env);
    RunOfSegments(segs, clean, env);
  }
  predicate NoStray(segs: seq<Segment>) {
    forall i :: 0 <= i < |segs| ==> !segs[i].Stray?
  }

  /** No line a block inlines from its source file reads as a directive. */
  predicate InlinesPlain(s: Segment, env: Env) {
    s.Block? && Sound(s, false, env) ==>
      var spec := ReadDirective(s.opener, env).spec;
      AllPlain(Body(spec, env.fs[spec.source].lines))
  }

  predicate AllInlinePlain(segs: seq<Segment>, env: Env) {
    forall i :: 0 <= i < |segs| ==> InlinesPlain(segs[i], env)
  }

  /** A segment as it stands in the output: a block holds its rendered
      contents where its stale lines were. */
  function Refill(s: Segment, clean: bool, env: Env): Segment
    requires Sound(s, clean, env)
  {
    match s
    case Block(o, st, c) =>
      Block(o, if clean then [] else Contents(ReadDirective(o, env).spec, env.fs).lines, c)
    case _ => s
  }

  function RefillAll(segs: seq<Segment>, clean: bool, env: Env): seq<Segment>
    requires AllSound(segs, clean, env)
    decreases |segs|
  {
    if segs == [] then []
    else RefillAll(segs[..|segs| - 1], clean, env) + [Refill(segs[|segs| - 1], clean, env)]
  }

  lemma AllPlainConcat(a: seq<string>, b: seq<string>)
    requires AllPlain(a) && AllPlain(b)
    ensures AllPlain(a + b)
  {
    assert forall i :: 0 <= i < |a + b| ==> (a + b)[i] == if i < |a| then a[i] else b[i - |a|];
  }

  /** The generated contents of a directive read as plain lines when the
      inlined source lines do: fences never read as directives. */
  lemma ContentsPlain(s: Segment, env: Env)
    requires s.Block? && Sound(s, false, env) && InlinesPlain(s, env)
    ensures AllPlain(Contents(ReadDirective(s.opener, env).spec, env.fs).lines)
  {
    var spec := ReadDirective(s.opener, env).spec;
    var body := Body(spec, env.fs[spec.source].lines);
    FencesArePlain(spec.lang);
    var open := if spec.verbatim then [Fence(spec.lang)] else [];
    var close := if spec.verbatim then [CloseFence] else [];
    assert AllPlain(open) && AllPlain(close);
    AllPlainConcat(open, body);
    AllPlainConcat(open + body, close);
  }

  /** One refilled segment: it is laid out as the segment renders, it is sound
      in either mode, and it renders as the original. */
  lemma RefillOne(s: Segment, m: bool, k: bool, env: Env)
    requires Sound(s, m, env) && Sound(s, k, env) && !s.Stray?
    requires !m ==> InlinesPlain(s, env)
    ensures Lines(Refill(s, m, env)) == Render(s, m, env)
    ensures Sound(Refill(s, m, env), k, env)
    ensures Render(Refill(s, m, env), k, env) == Render(s, k, env)
  {
    if s.Block? && !m {
      ContentsPlain(s, env);
    }
  }

  lemma {:induction false} RefillLayout(segs: seq<Segment>, m: bool, k: bool, env: Env)
    requires AllSound(segs, m, env) && AllSound(segs, k, env) && NoStray(segs)
    requires !m ==> AllInlinePlain(segs, env)
    ensures Flatten(RefillAll(segs, m, env)) == RenderAll(segs, m, env)
    ensures AllSound(RefillAll(segs, m, env), k, env)
    ensures RenderAll(RefillAll(segs, m, env), k, env) == RenderAll(segs, k, env)
    decreases |segs|
  {
    if segs != [] {
      var init, s := segs[..|segs| - 1], segs[|segs| - 1];
      assert AllSound(init, m, env) && AllSound(init, k, env) && NoStray(init);
      assert !m ==> AllInlinePlain(init, env);
      RefillLayout(init, m, k, env);
      RefillOne(s, m, k, env);
      var r := RefillAll(init, m, env);
      var t := Refill(s, m, env);
      FlattenSnoc(r, t);
      AllSoundSnoc(r, t, k, env);
      assert RefillAll(segs, m, env) == r + [t];
      assert (r + [t])[..|r|] == r;
      assert RenderAll(r + [t], k, env) == RenderAll(r, k, env) + Render(t, k, env);
    }
  }

  /** Old content between directive lines is replaced, not kept: running the
      generator in mode k over an output of mode m gives what running it in
      mode k over the original gives, as long as no closing line is stray and,
      after a transform, no inlined line reads as a directive. */
  lemma RenderThenRun(segs: seq<Segment>, m: bool, k: bool, env: Env)
    requires AllSound(segs, m, env) && AllSound(segs, k, env) && NoStray(segs)
    requires !m ==> AllInlinePlain(segs, env)
    ensures Run(RenderAll(segs, m, env), k, env) == Run(Flatten(segs), k, env)
  {
    RefillLayout(segs, m, k, env);
    RunOfSegments(RefillAll(segs, m, env), k, env);
    RunOfSegments(segs, k, env);
  }

  /** Transforming an already transformed document changes nothing. */
  lemma TransformIdempotent(segs: seq<Segment>, env: Env)
    requires AllSound(segs, false, env) && NoStray(segs) && AllInlinePlain(segs, env)
    ensures Run(Flatten(segs), false, env).failure.None?
    ensures Run(Run(Flatten(segs), false, env).lines, false, env) == Run(Flatten(segs), false, env)
  {
    RunOfSegments(segs, false, env);
    RenderThenRun(segs, false, false, env);
  }

  /** Transforming a cleaned document gives what transforming the original gives. */
  lemma TransformAfterClean(segs: seq<Segment>, env: Env)
    requires AllSound(segs, false, env) && NoStray(segs)
    ensures Run(Run(Flatten(segs), true, env).lines, false, env) == Run(Flatten(segs), false, env)
  {
    SoundInBothModes(segs, env);
    RunOfSegments(segs, true, env);
    RenderThenRun(segs, true, false, env);
  }

  /** Cleaning a cleaned document changes nothing. */
  lemma CleanIdempotent(segs: seq<Segment>, env: Env)
    requires AllSound(segs, true, env) && NoStray(segs)
    ensures Run(Run(Flatten(segs), true, env).lines, true, env) == Run(Flatten(segs), true, env)
  {
    RunOfSegments(segs, true, env);
    RenderThenRun(segs, true, true, env);
  }

  /** A document the generator can transform it can also clean. */
  lemma SoundInBothModes(segs: seq<Segment>, env: Env)
    requires AllSound(segs, false, env)
    ensures AllSound(segs, true, env)
  {
    assert forall i :: 0 <= i < |segs| ==> Sound(segs[i], false, env) ==> Sound(segs[i], true, env);
  }

  /** Why stray closing lines are excluded above: each pass doubles them. */
  lemma StrayDoubles(l: string, clean: bool, env: Env)
    requires Classify(l).Closer?
    ensures Run([l], clean, env) == Emission([l, l], None)
    ensures Run([l, l], clean, env) == Emission([l, l, l, l], None)
  {
    var one, two := [Stray(l)], [Stray(l), Stray(l)];
    assert AllSound(one, clean, env) && AllSound(two, clean, env);
    assert Flatten(one) == [l] by { assert one[..0] == []; }
    assert Flatten(two) == [l, l] by { assert two[..1] == one; }
    assert RenderAll(one, clean, env) == [l, l] by { assert one[..0] == []; }
    assert RenderAll(two, clean, env) == [l, l, l, l] by { assert two[..1] == one; }
    RunOfSegments(one, clean, env);
    RunOfSegments(two, clean, env);
  }
}
