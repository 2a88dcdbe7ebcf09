/**
 * The stream transformer, `result_generator`, and `check`: a two-state machine
 * (no directive open, or one opening directive waiting for its closing line)
 * that copies the input, replaces whatever sits between an opening and a
 * closing directive with the directive's contents (or with nothing, in clean
 * mode), and stops at the first error.
 */
module Transformer {
  import opened Wrappers
  import opened Comments
  import opened Directives
  import opened Materializer

  /** `current_directive`: no directive open, or the one awaiting its closer. */
  datatype State = Idle | Open(directive: InlineDirective)

  /** The generator part-way through its input: what it has yielded, the open
      directive, and the exception that stopped it. */
  datatype Progress = Progress(out: seq<string>, state: State, failure: Option<Failure>)

  const Start: Progress := Progress([], Idle, None)

  /** One turn of the `for` loop: a line seen while no directive is open is
      yielded first; then the line is parsed as a directive. A stopped
      generator stays stopped. */
  function Step(p: Progress, line: string, lineno: nat, clean: bool, env: Env): Progress {
    if p.failure.Some? then p
    else
      var out := if p.state.Idle? then p.out + [line] else p.out;
      match ParseDirective(line, lineno, env)
      case NoDirective => Progress(out, p.state, None)
      case Failed(f) => Progress(out, p.state, Some(f))
      case Closing => Progress(out + [line], Idle, None)
      case Opening(d) =>
        if p.state.Open? then
          Progress(out, p.state, Some(InlineError(StillOpen(p.state.directive.lineno), line, lineno)))
        else if clean then Progress(out, Open(d), None)
        else
          var c := Contents(d.spec, env.fs);
          Progress(out + c.lines, Open(d), c.failure)
  }

  /** Runs `Step` over `lines`, numbering them from `base + 1`. */
  function Feed(p: Progress, lines: seq<string>, base: nat, clean: bool, env: Env): Progress
    decreases |lines|
  {
    if lines == [] then p
    else Step(Feed(p, lines[..|lines| - 1], base, clean, env), lines[|lines| - 1], base + |lines|, clean, env)
  }

  /** The loop over `enumerate(input_lines, 1)`. */
  function Scan(input: seq<string>, clean: bool, env: Env): Progress {
    Feed(Start, input, 0, clean, env)
  }

  /** All of `result_generator`: the loop, then the check that no directive is
      left open at the end of the input. */
  function Run(input: seq<string>, clean: bool, env: Env): Emission {
    var p := Scan(input, clean, env);
    if p.failure.None? && p.state.Open? then
      Emission(p.out, Some(InlineError(NotClosed, p.state.directive.line, p.state.directive.lineno)))
    else Emission(p.out, p.failure)
  }

  /** Feeding two pieces one after the other is feeding their concatenation. */
  lemma {:induction false} FeedAppend(p: Progress, x: seq<string>, y: seq<string>, base: nat, clean: bool, env: Env)
    ensures Feed(p, x + y, base, clean, env) == Feed(Feed(p, x, base, clean, env), y, base + |x|, clean, env)
    decreases |y|
  {
    if y == [] {
      assert x + y == x;
    } else {
      var y', l := y[..|y| - 1], y[|y| - 1];
      assert (x + y)[..|x + y| - 1] == x + y' && (x + y)[|x + y| - 1] == l;
      FeedAppend(p, x, y', base, clean, env);
      var q := Feed(p, x, base, clean, env);
      assert Feed(p, x + y, base, clean, env) == Step(Feed(p, x + y', base, clean, env), l, base + |x| + |y|, clean, env);
      assert Feed(q, y, base + |x|, clean, env) == Step(Feed(q, y', base + |x|, clean, env), l, base + |x| + |y|, clean, env);
    }
  }

  /** Once an exception is raised nothing further is read or yielded. */
  lemma {:induction false} FeedStopped(p: Progress, y: seq<string>, base: nat, clean: bool, env: Env)
    requires p.failure.Some?
    ensures Feed(p, y, base, clean, env) == p
    decreases |y|
  {
    if y != [] {
      FeedStopped(p, y[..|y| - 1], base, clean, env);
    }
  }

  /** The first exception, raised while reading line n, is the result of the
      whole run, together with what was yielded up to it. */
  lemma FailureStops(input: seq<string>, n: nat, clean: bool, env: Env)
    requires n <= |input| && Scan(input[..n], clean, env).failure.Some?
    ensures Run(input, clean, env) == Emission(Scan(input[..n], clean, env).out, Scan(input[..n], clean, env).failure)
  {
    assert input == input[..n] + input[n..];
    FeedAppend(Start, input[..n], input[n..], 0, clean, env);
    FeedStopped(Scan(input[..n], clean, env), input[n..], n, clean, env);
  }

  /** Output is only ever appended to: what was yielded after reading a prefix
      of the input is a prefix of what the whole run yields. */
  lemma {:induction false} FeedStreams(p: Progress, y: seq<string>, base: nat, clean: bool, env: Env)
    ensures p.out <= Feed(p, y, base, clean, env).out
    decreases |y|
  {
    if y != [] {
      var q := Feed(p, y[..|y| - 1], base, clean, env);
      FeedStreams(p, y[..|y| - 1], base, clean, env);
      StepStreams(q, y[|y| - 1], base + |y|, clean, env);
    }
  }

  /** One turn of the loop only appends to the output, and after an exception
      it changes nothing. */
  lemma StepStreams(p: Progress, line: string, lineno: nat, clean: bool, env: Env)
    ensures p.out <= Step(p, line, lineno, clean, env).out
    ensures p.failure.Some? ==> Step(p, line, lineno, clean, env) == p
  {
  }

  lemma ScanStreams(input: seq<string>, n: nat, clean: bool, env: Env)
    requires n <= |input|
    ensures Scan(input[..n], clean, env).out <= Run(input, clean, env).lines
  {
    assert input == input[..n] + input[n..];
    FeedAppend(Start, input[..n], input[n..], 0, clean, env);
    FeedStreams(Scan(input[..n], clean, env), input[n..], n, clean, env);
  }

  /** Reading one more line is one more `Step`, with that line's 1-based number. */
  lemma ScanSnoc(input: seq<string>, line: string, clean: bool, env: Env)
    ensures Scan(input + [line], clean, env) == Step(Scan(input, clean, env), line, |input| + 1, clean, env)
  {
    assert (input + [line])[..|input|] == input;
  }

  /** `result_generator`, yielding into `out`; `failure` is the exception it
      raises, if any. */
  method ResultGenerator(input: seq<string>, clean: bool, env: Env) returns (out: seq<string>, failure: Option<Failure>)
    ensures Emission(out, failure) == Run(input, clean, env)
  {
    out := [];
    var current: State := Idle;
    var i := 0;
    while i < |input|
      invariant i <= |input|
      invariant Scan(input[..i], clean, env) == Progress(out, current, None)
    {
      var line, lineno := input[i], i + 1;
      assert input[..i + 1] == input[..i] + [line];
      ScanSnoc(input[..i], line, clean, env);
      ghost var next := Step(Progress(out, current, None), line, lineno, clean, env);
      assert Scan(input[..i + 1], clean, env) == next;
      if current.Idle? {
        out := out + [line];
      }
      match ParseDirective(line, lineno, env) {
        case NoDirective =>
        case Failed(f) =>
          failure := Some(f);
          FailureStops(input, i + 1, clean, env);
          return;
        case Opening(d) =>
          if current.Open? {
            failure := Some(InlineError(StillOpen(current.directive.lineno), line, lineno));
            FailureStops(input, i + 1, clean, env);
            return;
          }
          current := Open(d);
          if !clean {
            var c := Contents(d.spec, env.fs);
            out := out + c.lines;
            if c.failure.Some? {
              failure := c.failure;
              FailureStops(input, i + 1, clean, env);
              return;
            }
          }
        case Closing =>
          out := out + [line];
          current := Idle;
      }
      i := i + 1;
    }
    assert input[..i] == input;
    if current.Open? {
      failure := Some(InlineError(NotClosed, current.directive.line, current.directive.lineno));
    } else {
      failure := None;
    }
  }

  /** `check`: runs the generator to the end and keeps only its exception. */
  method Check(input: seq<string>, clean: bool, env: Env) returns (failure: Option<Failure>)
    ensures failure == Run(input, clean, env).failure
  {
    var _, f := ResultGenerator(input, clean, env);
    failure := f;
  }

  /** Where an exception can come from: every InlineError names a line of the
      input and that line's 1-based number, and an open directive is the
      line at its own number. */
  predicate Cites(input: seq<string>, line: string, lineno: nat) {
    1 <= lineno <= |input| && input[lineno - 1] == line
  }

  lemma {:induction false} ScanCites(input: seq<string>, clean: bool, env: Env)
    ensures var p := Scan(input, clean, env);
      && (p.state.Open? ==> Cites(input, p.state.directive.line, p.state.directive.lineno))
      && (p.failure.Some? && p.failure.value.InlineError? ==> Cites(input, p.failure.value.line, p.failure.value.lineno))
  {
    if input != [] {
      var x, line := input[..|input| - 1], input[|input| - 1];
      assert input == x + [line];
      ScanCites(x, clean, env);
      ScanSnoc(x, line, clean, env);
    }
  }

  /** Every InlineError the generator raises carries a line of the input
      together with that line's own 1-based number. */
  lemma ErrorsCiteInput(input: seq<string>, clean: bool, env: Env)
    requires Run(input, clean, env).failure.Some? && Run(input, clean, env).failure.value.InlineError?
    ensures Cites(input, Run(input, clean, env).failure.value.line, Run(input, clean, env).failure.value.lineno)
  {
    ScanCites(input, clean, env);
  }

  /** An input that ends with a directive still open fails with "Directive not
      closed at end of file", citing the opening directive's own line. */
  lemma UnclosedAtEnd(input: seq<string>, clean: bool, env: Env)
    requires Scan(input, clean, env).failure.None? && Scan(input, clean, env).state.Open?
    ensures var d := Scan(input, clean, env).state.directive;
      && Run(input, clean, env).failure == Some(InlineError(NotClosed, d.line, d.lineno))
      && Cites(input, d.line, d.lineno)
      && Run(input, clean, env).lines == Scan(input, clean, env).out
  {
    ScanCites(input, clean, env);
  }

  /** An opening directive read while another is open is rejected, citing the
      new line, its number, and the line number of the directive still open. */
  lemma NestingRejected(input: seq<string>, line: string, clean: bool, env: Env)
    requires Scan(input, clean, env).failure.None? && Scan(input, clean, env).state.Open?
    requires ParseDirective(line, |input| + 1, env).Opening?
    ensures var d := Scan(input, clean, env).state.directive;
      Run(input + [line], clean, env).failure == Some(InlineError(StillOpen(d.lineno), line, |input| + 1))
    ensures Run(input + [line], clean, env).lines == Scan(input, clean, env).out
  {
    ScanSnoc(input, line, clean, env);
  }

  /** While no directive is open, a line that is not a directive is yielded
      unchanged, and a closing line is yielded twice. */
  lemma IdleEcho(input: seq<string>, line: string, clean: bool, env: Env)
    requires Scan(input, clean, env).failure.None? && Scan(input, clean, env).state.Idle?
    requires !Classify(line).Opener?
    ensures var p := Scan(input, clean, env);
      Scan(input + [line], clean, env)
        == Progress(p.out + (if Classify(line).Closer? then [line, line] else [line]), Idle, None)
  {
    ScanSnoc(input, line, clean, env);
  }

  /** While a directive is open, a line that is not a directive is dropped. */
  lemma StaleDropped(input: seq<string>, line: string, clean: bool, env: Env)
    requires Scan(input, clean, env).failure.None? && Scan(input, clean, env).state.Open?
    requires Classify(line).Plain?
    ensures Scan(input + [line], clean, env) == Scan(input, clean, env)
  {
    ScanSnoc(input, line, clean, env);
  }

  /** A closing line read while a directive is open is yielded once and
      closes it, whichever of the two tag names either line uses. */
  lemma CloserCloses(input: seq<string>, line: string, clean: bool, env: Env)
    requires Scan(input, clean, env).failure.None? && Scan(input, clean, env).state.Open?
    requires Classify(line).Closer?
    ensures Scan(input + [line], clean, env) == Progress(Scan(input, clean, env).out + [line], Idle, None)
  {
    ScanSnoc(input, line, clean, env);
  }

  /** An accepted opening line read while no directive is open is yielded,
      followed in transform mode by the directive's contents, and opens it. */
  lemma OpenerOpens(input: seq<string>, line: string, clean: bool, env: Env)
    requires Scan(input, clean, env).failure.None? && Scan(input, clean, env).state.Idle?
    requires ParseDirective(line, |input| + 1, env).Opening?
    ensures var p, d := Scan(input, clean, env), ParseDirective(line, |input| + 1, env).directive;
      var c := Contents(d.spec, env.fs);
      && d.line == line && d.lineno == |input| + 1
      && Scan(input + [line], clean, env)
        == Progress(p.out + [line] + (if clean then [] else c.lines), Open(d), if clean then None else c.failure)
  {
    ScanSnoc(input, line, clean, env);
  }

  /** Clean mode and transform mode walk through the same states and raise the
      same exceptions, except that only transform mode reads the files and so
      only it can stop on a start or end islice rejects. */
  lemma {:induction false} ModesAgree(input: seq<string>, env: Env)
    ensures var t, c := Scan(input, false, env), Scan(input, true, env);
      && c.failure != Some(SliceIndexError)
      && (t.failure == Some(SliceIndexError) || (t.state == c.state && t.failure == c.failure))
  {
    if input != [] {
      var x, line := input[..|input| - 1], input[|input| - 1];
      assert input == x + [line];
      ModesAgree(x, env);
      ScanSnoc(x, line, false, env);
      ScanSnoc(x, line, true, env);
    }
  }

  lemma RunModesAgree(input: seq<string>, env: Env)
    ensures Run(input, true, env).failure != Some(SliceIndexError)
    ensures Run(input, false, env).failure == Some(SliceIndexError)
         || Run(input, false, env).failure == Run(input, true, env).failure
  {
    ModesAgree(input, env);
  }
}
