# deckset-inline directive engine, in Dafny

This project models the engine of `deckset-inline`, a filter for Markdown
slides. A document may hold pairs of HTML-comment directives:

```
<!-- <inline src="path" verbatim lang="python" start="2" end="12"> -->
...
<!-- </inline> -->
```

The filter replaces whatever sits between an opening and a closing directive
with lines from the named file. Those lines are optionally fenced as a code
block. In clean mode the filter empties the space instead.

The model covers each part of the engine:

- the single-line comment extractor (`COMMENT_RE`, `extract_line_comment`);
- the recognition of opening and closing directives and the attributes derived
  from them (`parse_directive`);
- the validation run when an opening directive is built
  (`InlineDirective.__post_init__`, `raise_error`, `InlineError`);
- the generation of a directive's contents (`InlineDirective.contents`);
- the line-by-line stream transformer (`result_generator`) and `check`.

Files and modules:

- `wrappers.dfy` (`Wrappers`): `Option` and `Result`.
- `text.dfy` (`Text`): the whitespace class, the search for `-->`, Python's
  `int()` on a string (`ParseInt`), and the decimal rendering of line numbers.
- `comments.dfy` (`Comments`): `ExtractLineComment`, which is the match of
  `^\s*<!--\s*(.*?)\s*-->`. Also the classification of a line as an opening
  tag, a closing tag or neither.
- `directives.dfy` (`Directives`) holds:
  - attribute lookup with dictionary semantics;
  - `PostInit` (the validation);
  - `ReadDirective` and `ParseDirective`;
  - the error values and their exact wording.
- `contents.dfy` (`Materializer`): `islice` over the lines of a file, the
  fences, and `Contents`.
- `transformer.dfy` (`Transformer`): the state machine. `Step` is one turn of
  the loop, `Scan`/`Run` cover the whole run, `ResultGenerator` is the
  imperative loop proved equal to `Run`, and `Check` runs it to the end.
- `segments.dfy` (`Segments`): a reference definition of what the generator
  does to a document it accepts. Every such document is a sequence of:
  - plain lines;
  - stray closing lines;
  - blocks: an opening line, stale lines, and a closing line.

  This module proves that the generator matches the reference definition in
  both directions. It also proves the replacement and idempotence results.

How the model treats the environment and the output:

- **Output.** The generator is lazy, so output is modelled as the lines yielded
  so far plus the exception that stopped the run (`Emission`). Output can
  appear before an error. For example, a fenced directive with start `0` yields
  the opening fence and then the `ValueError` of `islice`.
- **Markup parser.** `html.parser` is a parameter of the model: `Env.attrsOf`
  maps the text of an opening tag to its attribute list in source order.
  `None` stands for the parser raising or seeing no tag; this gives
  `MarkupError`, not an `InlineError`.
- **File system.** It is a map from path to `Readable(lines)` or
  `Unreadable(reason)`. A path that is not a key does not exist.

Two behaviours of the code are modelled as written:

- **Stray closers.** A closing directive read while no directive is open is
  yielded twice: once as an ordinary line (inliner.py:228) and once as a
  closing line (inliner.py:242). A reader would expect an unmatched closing
  line to pass through once. The model follows the code, and
  `StrayDoubles` shows the consequence: every pass doubles such lines again.
- **Tag matching.** Any closing form closes any opening form; the tag names
  are not compared.

## Model

| member | source | states |
|---|---|---|
| `Text.ParseIntDecimal` | src/deckset_inline/inliner.py:89-98 | `int()` (`ParseInt`) accepts surrounding whitespace and an optional sign, and reads every decimal rendering of at most 4300 digits back as its value, negated under `-`. |
| `Text.ParseIntShape` | src/deckset_inline/inliner.py:89-98 | Conversely, whatever `int()` accepts is, once stripped, an optional sign and 1 to 4300 decimal digits, and its value is the one those digits denote. |
| `Text.ParseIntDigitLimit` | src/deckset_inline/inliner.py:89-98 | `int()` refuses a number written with more than 4300 digits (the default of `sys.get_int_max_str_digits()`), so such a `start` or `end` gives the "Invalid value" error. |
| `Text.Decimal` | src/deckset_inline/inliner.py:46 | The line number in an error text is a non-empty string of decimal digits, without a leading zero, whose value is the number. |
| `Comments.ExtractLineComment` | src/deckset_inline/inliner.py:131-139 | An extracted comment text is trimmed, contains no newline and contains no `-->`. |
| `Comments.ExtractExact` | src/deckset_inline/inliner.py:39 | A line of the form whitespace, `<!--`, whitespace, text, whitespace, `-->`, anything gives exactly that text. The text must be trimmed, on one line, and have no earlier `-->`. |
| `Comments.ExtractShape` | src/deckset_inline/inliner.py:39 | Conversely, every line that gives a text has exactly that form around it, so nothing after the first `-->` matters. |
| `Comments.KindOfCases` | src/deckset_inline/inliner.py:177-209 | `KindOf`, the two tests on the inner text: it opens exactly when it starts with `<inline ` or `<python ` (a literal space), with that tag, and closes exactly when it is `</inline>` or `</python>`. |
| `Comments.ClassifyShaped` | src/deckset_inline/inliner.py:172-209 | `Classify`: a comment line is classified by its inner text only, through `KindOf`. |
| `Comments.PlainUnlessComment` | src/deckset_inline/inliner.py:131-139 | A line whose first character is neither whitespace nor `<` is never a directive. |
| `Directives.LastIndexOf` | src/deckset_inline/inliner.py:181 | Gives the position of the last attribute with a given name, or -1 when there is none. |
| `Directives.LookupLastWins` | src/deckset_inline/inliner.py:181-195 | `Lookup` (`dict(attrs)` at a key) and `Get` (`dict.get`) of an empty list are absent. Appending an attribute sets its own name (to its value, `None` for a bare one) and leaves other names unchanged. |
| `Directives.PostInit` | src/deckset_inline/inliner.py:71-98 | Validation runs the checks in source order, and each error kind happens exactly when the earlier checks pass and its own fails. The order is: `src` has no value, file missing, file unreadable (the entry's OS reason is the message), `start` not an integer, `end` not an integer. On success the directive holds the source and the integer values. |
| `Directives.ReadDirective` | src/deckset_inline/inliner.py:160-209 | A line is not a directive exactly when it is not an opening or closing comment. It closes exactly when its text is a closing tag. It is unreadable markup exactly when it is an opening tag the parser cannot read. An accepted opening names a file that exists and is readable. |
| `Directives.OpeningVerdict` | src/deckset_inline/inliner.py:181-205 | `OpeningFrom`: an opening tag the parser reads is either accepted or rejected. Without a `src` key it is rejected with "Attribute 'src' not set". Otherwise it is accepted exactly when `src` names a readable file and `start` and `end` are absent or integers, and a rejection carries the message of the `__post_init__` validation. |
| `Directives.ParseDirective` | src/deckset_inline/inliner.py:160-209 | An opening directive and every `InlineError` carry the line as read and its number. The result opens exactly when the line reads as an accepted opening. |
| `Directives.ParseOutcome` | src/deckset_inline/inliner.py:172-209 | `parse_directive` returns `None` exactly for a line that is no directive, and a closing directive exactly for a closing line. It raises `MarkupError` exactly for unreadable markup, and an `InlineError` exactly for a rejected opening, with the rejection's message, the line and its number. |
| `Directives.OpeningAttributes` | src/deckset_inline/inliner.py:186-195 | `python` forces a fenced block with the language `python`. `inline` fences when `verbatim` or `lang` is present at all, and its language is the value of `lang`. `start` and `end` are the integers their values denote, and a missing or bare one is absent. |
| `Directives.MissingSource` | src/deckset_inline/inliner.py:182-185 | An opening tag without a `src` attribute is rejected with "Attribute 'src' not set for {tag} directive". |
| `Directives.ErrorTextCitesLine` | src/deckset_inline/inliner.py:42-46 | `ErrorText`, the text of an `InlineError`: "Line ", digits denoting the line number, ": ", the message, then a newline and the offending line. |
| `Materializer.IsliceWindow` | src/deckset_inline/inliner.py:111 | `Islice(lines, lo, hi)` yields exactly the lines with 0-based index in `[lo, min(hi, N))`, in order. |
| `Materializer.BodyBounds` | src/deckset_inline/inliner.py:104-111 | The body of a directive is exactly source lines S..min(E, N), 1-based and inclusive. S defaults to 1 and E to N, and the body is empty when S > min(E, N). |
| `Materializer.ContentsLines` | src/deckset_inline/inliner.py:100-113 | `Contents` is the opening `Fence` (with the language) when verbatim, then the body, then the closing fence when verbatim. If `islice` rejects the start or the end (S - 1 or E outside 0..sys.maxsize), the contents are only the opening fence, followed by the `ValueError`. |
| `Materializer.FencesArePlain` | src/deckset_inline/inliner.py:106-113 | Fence lines never read as directives. |
| `Transformer.StepStreams` | src/deckset_inline/inliner.py:225-243 | `Step`, one turn of the loop, only appends to what was yielded, and after an exception it changes nothing. |
| `Transformer.ResultGenerator` | src/deckset_inline/inliner.py:212-249 | The imperative loop yields exactly the lines of `Run` and raises exactly its exception. |
| `Transformer.Check` | src/deckset_inline/inliner.py:252-264 | `check` raises exactly the exception a full run raises. |
| `Transformer.FailureStops` | src/deckset_inline/inliner.py:225-249 | The first exception ends the run (`Run`): the result is that exception and the lines yielded before it. |
| `Transformer.ScanStreams` | src/deckset_inline/inliner.py:225-243 | Output is only appended to. What has been yielded after any prefix of the input is a prefix of the final output. |
| `Transformer.ErrorsCiteInput` | src/deckset_inline/inliner.py:225-249 | Every `InlineError` names a line of the input together with that line's own 1-based number. |
| `Transformer.UnclosedAtEnd` | src/deckset_inline/inliner.py:244-249 | `Run` on input that ends with a directive open fails with "Directive not closed at end of file". The error cites the opening line and its number, which is a line of the input. |
| `Transformer.NestingRejected` | src/deckset_inline/inliner.py:231-237 | An opening directive read while another is open fails with the new line and its number. The message cites the line number of the directive still open, and nothing more is yielded. |
| `Transformer.IdleEcho` | src/deckset_inline/inliner.py:226-243 | With no directive open, a non-directive line is yielded unchanged, and a closing line is yielded twice and leaves nothing open. |
| `Transformer.StaleDropped` | src/deckset_inline/inliner.py:226-230 | With a directive open, a non-directive line is not yielded and changes nothing. |
| `Transformer.CloserCloses` | src/deckset_inline/inliner.py:241-243 | With a directive open, a closing line is yielded once and closes it, whatever the tag names. |
| `Transformer.OpenerOpens` | src/deckset_inline/inliner.py:231-240 | With no directive open, an accepted opening line is yielded. In transform mode the directive's contents follow it, and the directive becomes the open one. |
| `Transformer.RunModesAgree` | src/deckset_inline/inliner.py:238-240 | Clean mode never raises the `islice` error. Otherwise transform mode raises exactly what clean mode raises. |
| `Segments.RunOfSegments` | src/deckset_inline/inliner.py:212-249 | A document made of sound segments is accepted. Its output renders each segment in turn: a plain line is copied, a stray closing line is doubled, and a block is its opening line, the contents (nothing in clean mode), then its closing line. |
| `Segments.Decompose` | src/deckset_inline/inliner.py:212-249 | Every accepted document splits into sound segments, and its output is their rendering. |
| `Segments.RenderThenRun` | src/deckset_inline/inliner.py:12-13 | Old content between directives is replaced, not kept. On the sequence of yielded lines, running mode k on the output of mode m gives what mode k gives on the original. This holds when no closing line is stray and, after a transform, no inlined line reads as a directive. |
| `Segments.TransformIdempotent` | src/deckset_inline/inliner.py:226-243 | Transforming the yielded line sequence again gives the same lines, under the same two conditions. |
| `Segments.TransformAfterClean` | src/deckset_inline/inliner.py:226-243 | Transforming the lines a clean yields gives what transforming the original gives, when no closing line is stray. |
| `Segments.CleanIdempotent` | src/deckset_inline/inliner.py:226-243 | Cleaning the lines a clean yields changes nothing, when no closing line is stray. |
| `Segments.StrayDoubles` | src/deckset_inline/inliner.py:226-243 | A stray closing line comes out twice, and two come out four times. This is why the idempotence results exclude stray closing lines. |

## Left out

- `parse_args`, `main`, `inline` and the `fileinput` in-place editing with backup files are command-line and I/O plumbing and are not modelled. `consume_iterator` is modelled only as running the generator to the end (`Check`).
- The tokenizer of `html.parser` (lowercasing, entity unescaping, quoting rules) is not modelled. It is the `Env.attrsOf` parameter. A second start tag in the text trips the program's own `assert self.tag is None` in `DirectiveParser.handle_starttag` (inliner.py:151-154). The resulting `AssertionError` is folded into `MarkupError`, through `attrsOf` giving `None`. The tag name comes from the `<inline ` or `<python ` prefix, which is what the parser reports for such text.
- The `isinstance(self.source, str)` check (inliner.py:78-79) has no counterpart. Attribute values are always strings or `None`, so that error cannot occur.
- Real file-system calls are not modelled. `Path(src)` normalisation is left out, so the "File ... not found" message holds the `src` value as written. OS error texts are the `reason` of an unreadable entry.
- Files are read from one snapshot. A file changing between validation and reading is not modelled.
- Generator laziness and the closing of file handles are not modelled. Output is the sequence yielded up to the point of failure.
- `ParseInt` models `int()` on ASCII only: underscores between digits and non-ASCII digits are not accepted. The 4300-digit limit is the default of CPython 3.11 and later (and of the 2022 security releases of 3.7 to 3.10); a raised or disabled limit, or an older interpreter without one, is not modelled. The whitespace class, for `\s` and for `int()`, is ASCII space, tab, newline, carriage return, vertical tab and form feed. It leaves out the ASCII separators `\x1c` to `\x1f`, which `\s` matches because `str.isspace()` holds for them, as well as the non-ASCII spaces.
- The validation of `__post_init__` is modelled on values (`PostInit` returns a `Spec` with the converted fields) rather than as in-place field updates. The Python fields change type (string to path and integer), which has no direct counterpart.
- A closing `InlineDirective` object carries only its kind: it is never validated, and the generator uses nothing else of it.
- `RenderThenRun`, `TransformIdempotent`, `TransformAfterClean`, `CleanIdempotent`: these hold for the sequence of yielded lines, not for the written text read back. The tool writes the lines out as text (inliner.py:277-278), and a later run splits that text at newlines. A yielded line without a final newline, such as the last line of an inlined file that does not end in one, then merges with the next line. If that next line is the closing directive, the comment is no longer matched, and the re-run reads the rest differently, up to "Directive not closed at end of file". Writing text and splitting it again is not modelled.
