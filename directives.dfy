/**
 * The directive model: attribute lookup with dictionary semantics, the
 * validation done when an opening directive is constructed, the error values
 * and their wording, and `parse_directive`.
 */
module Directives {
  import opened Wrappers
  import opened Text
  import opened Comments

  /** One attribute as the markup parser reports it: a name and, unless the
      attribute was written bare (as `verbatim` usually is), its value. */
  datatype Attr = Attr(name: string, value: Option<string>)

  /** A file as the engine sees it: its lines (each with its line terminator),
      or the reason opening it for reading fails. A path that is not a key
      does not exist. */
  datatype FileEntry = Readable(lines: seq<string>) | Unreadable(reason: string)

  type FileSystem = map<string, FileEntry>

  /** Everything a scan depends on besides its input lines: the files, and the
      markup parser, which maps the text of an opening tag to its attribute
      list in source order, or to None when it raises or reports no tag. */
  datatype Env = Env(fs: FileSystem, attrsOf: string -> Option<seq<Attr>>)

  /** Index of the last attribute called `name`, or -1. */
  function LastIndexOf(attrs: seq<Attr>, name: string): (r: int)
    ensures -1 <= r < |attrs|
    ensures r == -1 ==> forall i :: 0 <= i < |attrs| ==> attrs[i].name != name
    ensures 0 <= r ==> attrs[r].name == name && forall i :: r < i < |attrs| ==> attrs[i].name != name
  {
    if attrs == [] then -1
    else if attrs[|attrs| - 1].name == name then |attrs| - 1
    else LastIndexOf(attrs[..|attrs| - 1], name)
  }

  /** `dict(attrs)` at `name`: None when absent, otherwise Some of the value of
      its last occurrence (None for a bare attribute). */
  function Lookup(attrs: seq<Attr>, name: string): Option<Option<string>> {
    var i := LastIndexOf(attrs, name);
    if i < 0 then None else Some(attrs[i].value)
  }

  /** `dict(attrs).get(name)`: absent and bare attributes both give None. */
  function Get(attrs: seq<Attr>, name: string): Option<string> {
    match Lookup(attrs, name)
    case None => None
    case Some(v) => v
  }

  /** Building the dictionary: a later attribute overrides an earlier one of the
      same name and leaves the others alone. */
  lemma LookupLastWins(attrs: seq<Attr>, a: Attr, name: string)
    ensures Lookup([], name) == None && Get([], name) == None
    ensures Lookup(attrs + [a], name) == if name == a.name then Some(a.value) else Lookup(attrs, name)
    ensures Get(attrs + [a], name) == if name == a.name then a.value else Get(attrs, name)
  {
    assert (attrs + [a])[..|attrs|] == attrs;
  }

  /** A validated opening directive: what `InlineDirective` holds after
      `__post_init__` has replaced `source` by a path and `start`/`end` by
      integers. */
  datatype Spec = Spec(source: string, verbatim: bool, lang: Option<string>, start: Option<int>, end: Option<int>)

  /** The messages of the InlineErrors the engine raises. */
  datatype Message =
    | SrcNotSet(tag: Tag)
    | SourceMissing
    | FileNotFound(path: string)
    | CannotOpen(reason: string)
    | BadStart(value: string)
    | BadEnd(value: string)
    | StillOpen(openedAt: nat)
    | NotClosed
  {
    function Wording(): string {
      match this
      case SrcNotSet(tag) => "Attribute 'src' not set for " + TagName(tag) + " directive"
      case SourceMissing => "Source attribute must be present in directive"
      case FileNotFound(path) => "File " + path + " not found"
      case CannotOpen(reason) => reason
      case BadStart(value) => "Invalid value " + value + " for start attribute"
      case BadEnd(value) => "Invalid value " + value + " for end attribute"
      case StillOpen(n) => "New directive found while previous is still open at line " + Decimal(n)
      case NotClosed => "Directive not closed at end of file"
    }
  }

  /** Why a scan stops. */
  datatype Failure =
      /** InlineError: a message, the offending line and its 1-based number. */
    | InlineError(message: Message, line: string, lineno: nat)
      /** An exception from the markup parser, or `dict(None)` when it saw no tag. */
    | MarkupError
      /** The ValueError islice raises for a start or an end outside its range. */
    | SliceIndexError

  /** `str()` of an InlineError: "Line {lineno}: {message}\n{line}". */
  function ErrorText(message: Message, line: string, lineno: nat): string {
    "Line " + Decimal(lineno) + ": " + message.Wording() + "\n" + line
  }

  /** The error text starts with "Line ", the digits of the line number and
      ": ", then holds the message, and ends with the offending line on a line
      of its own. */
  lemma ErrorTextCitesLine(message: Message, line: string, lineno: nat)
    ensures var t := ErrorText(message, line, lineno);
      var d := |Decimal(lineno)|;
      && t[..5] == "Line "
      && AllDigits(t[5..5 + d]) && DigitsValue(t[5..5 + d]) == lineno
      && t[5 + d..7 + d] == ": "
      && t[7 + d..|t| - |line| - 1] == message.Wording()
      && t[|t| - |line| - 1..] == "\n" + line
  {
    FormatSlices(Decimal(lineno), message.Wording(), line);
  }

  lemma FormatSlices(d: string, w: string, line: string)
    ensures var t := "Line " + d + ": " + w + "\n" + line;
      && t[..5] == "Line " && t[5..5 + |d|] == d && t[5 + |d|..7 + |d|] == ": "
      && t[7 + |d|..|t| - |line| - 1] == w
      && t[|t| - |line| - 1..] == "\n" + line
  {
    var t := "Line " + d + ": " + w + "\n" + line;
    assert t == "Line " + (d + (": " + (w + ("\n" + line))));
  }

  /** An optional attribute string that int() accepts (or that is absent). */
  predicate Coerces(value: Option<string>) {
    value.None? || ParseInt(value.value).Some?
  }

  function Coerce(value: Option<string>): Option<int>
    requires Coerces(value)
  {
    if value.None? then None else ParseInt(value.value)
  }

  /** The source path names a file that exists and can be opened. */
  predicate Openable(fs: FileSystem, src: Option<string>) {
    src.Some? && src.value in fs && fs[src.value].Readable?
  }

  /** `InlineDirective.__post_init__` for an opening directive: the checks run in
      source order and the first one that fails is reported. */
  function PostInit(src: Option<string>, verbatim: bool, lang: Option<string>,
                    start: Option<string>, end: Option<string>, fs: FileSystem): (r: Result<Spec, Message>)
    ensures r.Ok? <==> Openable(fs, src) && Coerces(start) && Coerces(end)
    ensures r.Ok? ==> r.value == Spec(src.value, verbatim, lang, Coerce(start), Coerce(end))
    ensures r == Err(SourceMissing) <==> src.None?
    ensures r.Err? && r.error.FileNotFound? <==> src.Some? && src.value !in fs
    ensures r.Err? && r.error.FileNotFound? ==> r.error.path == src.value
    ensures r.Err? && r.error.CannotOpen? <==> src.Some? && src.value in fs && fs[src.value].Unreadable?
    ensures r.Err? && r.error.CannotOpen? ==> r.error.reason == fs[src.value].reason
    ensures r.Err? && r.error.BadStart? <==> Openable(fs, src) && !Coerces(start)
    ensures r.Err? && r.error.BadEnd? <==> Openable(fs, src) && Coerces(start) && !Coerces(end)
    ensures r.Err? && r.error.BadStart? ==> r.error.value == start.value
    ensures r.Err? && r.error.BadEnd? ==> r.error.value == end.value
  {
    if src.None? then Err(SourceMissing)
    else if src.value !in fs then Err(FileNotFound(src.value))
    else if fs[src.value].Unreadable? then Err(CannotOpen(fs[src.value].reason))
    else if start.Some? && ParseInt(start.value).None? then Err(BadStart(start.value))
    else if end.Some? && ParseInt(end.value).None? then Err(BadEnd(end.value))
    else Ok(Spec(src.value, verbatim, lang, Coerce(start), Coerce(end)))
  }

  /** What a line says as a directive, before a line number is attached. */
  datatype Reading = NotDirective | Opens(spec: Spec) | Closes | Rejected(message: Message) | Unparsable

  /** The opening branch of `parse_directive` on the attribute list. */
  function OpeningFrom(tag: Tag, attrs: seq<Attr>, fs: FileSystem): Reading {
    var src := Lookup(attrs, "src");
    if src.None? then Rejected(SrcNotSet(tag))
    else
      var verbatim := tag == PythonTag || Lookup(attrs, "verbatim").Some? || Lookup(attrs, "lang").Some?;
      var lang := if tag == PythonTag then Some("python") else Get(attrs, "lang");
      match PostInit(src.value, verbatim, lang, Get(attrs, "start"), Get(attrs, "end"), fs)
      case Ok(spec) => Opens(spec)
      case Err(message) => Rejected(message)
  }

  /** `parse_directive` without the bookkeeping of the line number. */
  function ReadDirective(line: string, env: Env): (r: Reading)
    ensures r.NotDirective? <==> Classify(line).Plain?
    ensures r.Closes? <==> Classify(line).Closer?
    ensures r.Unparsable? <==> Classify(line).Opener? && env.attrsOf(Classify(line).text).None?
    ensures r.Opens? ==> r.spec.source in env.fs && env.fs[r.spec.source].Readable?
  {
    match Classify(line)
    case Plain => NotDirective
    case Closer => Closes
    case Opener(tag, text) =>
      match env.attrsOf(text)
      case None => Unparsable
      case Some(attrs) => OpeningFrom(tag, attrs, env.fs)
  }

  /** An opening directive, validated, with where it was found. */
  datatype InlineDirective = InlineDirective(lineno: nat, line: string, spec: Spec)

  datatype Parsed = NoDirective | Opening(directive: InlineDirective) | Closing | Failed(failure: Failure)

  /** `parse_directive(line, lineno)`: None, an opening or a closing directive,
      or the exception raised while building one. */
  function ParseDirective(line: string, lineno: nat, env: Env): (r: Parsed)
    ensures r.Opening? ==> r.directive.line == line && r.directive.lineno == lineno
    ensures r.Opening? <==> ReadDirective(line, env).Opens?
    ensures r.Opening? ==> r.directive.spec.source in env.fs && env.fs[r.directive.spec.source].Readable?
    ensures r.Failed? && r.failure.InlineError? ==> r.failure.line == line && r.failure.lineno == lineno
  {
    match ReadDirective(line, env)
    case NotDirective => NoDirective
    case Opens(spec) => Opening(InlineDirective(lineno, line, spec))
    case Closes => Closing
    case Rejected(message) => Failed(InlineError(message, line, lineno))
    case Unparsable => Failed(MarkupError)
  }

  /** Each reading of a line becomes one outcome of `parse_directive`: None
      for a line that is no directive, a closing directive, MarkupError for
      an opening tag the markup parser cannot read, and an InlineError with
      the rejection's message, the line and its number. */
  lemma ParseOutcome(line: string, lineno: nat, env: Env)
    ensures var r, d := ParseDirective(line, lineno, env), ReadDirective(line, env);
      && (r.NoDirective? <==> d.NotDirective?)
      && (r.Closing? <==> d.Closes?)
      && (r == Failed(MarkupError) <==> d.Unparsable?)
      && (r.Failed? && r.failure.InlineError? <==> d.Rejected?)
      && (d.Rejected? ==> r == Failed(InlineError(d.message, line, lineno)))
      && (d.Opens? ==> r == Opening(InlineDirective(lineno, line, d.spec)))
  {
  }

  /** How the attributes of an accepted opening tag become the directive:
      `python` forces a fenced block tagged "python"; `inline` fences when
      `verbatim` or `lang` is present at all, and tags the fence with the value
      of `lang`; `start` and `end` are the integers their values denote. */
  lemma OpeningAttributes(line: string, env: Env)
    requires ReadDirective(line, env).Opens?
    ensures Classify(line).Opener? && env.attrsOf(Classify(line).text).Some?
    ensures var tag, attrs, spec := Classify(line).tag, env.attrsOf(Classify(line).text).value, ReadDirective(line, env).spec;
      && Lookup(attrs, "src") == Some(Some(spec.source))
      && (tag == PythonTag ==> spec.verbatim && spec.lang == Some("python"))
      && (tag == InlineTag ==> spec.verbatim == (Lookup(attrs, "verbatim").Some? || Lookup(attrs, "lang").Some?))
      && (tag == InlineTag ==> spec.lang == Get(attrs, "lang"))
      && (Get(attrs, "start").Some? ==> spec.start == ParseInt(Get(attrs, "start").value))
      && (Get(attrs, "start").None? ==> spec.start.None?)
      && (Get(attrs, "end").Some? ==> spec.end == ParseInt(Get(attrs, "end").value))
      && (Get(attrs, "end").None? ==> spec.end.None?)
  {
  }

  /** Which opening tags are accepted: one the markup parser cannot read
      fails with MarkupError (see ReadDirective); one it reads is rejected
      for a missing `src` key, and otherwise accepted exactly when the
      validation of `__post_init__` passes, and rejected with the message
      that validation gives, whatever `verbatim` and `lang` are. */
  lemma OpeningVerdict(line: string, env: Env, attrs: seq<Attr>, verbatim: bool, lang: Option<string>)
    requires Classify(line).Opener? && env.attrsOf(Classify(line).text) == Some(attrs)
    ensures var r, src := ReadDirective(line, env), Lookup(attrs, "src");
      var start, end := Get(attrs, "start"), Get(attrs, "end");
      && (r.Opens? || r.Rejected?)
      && (src.None? ==> r == Rejected(SrcNotSet(Classify(line).tag)))
      && (src.Some? ==> (r.Opens? <==> Openable(env.fs, src.value) && Coerces(start) && Coerces(end)))
      && (src.Some? && r.Rejected? ==> PostInit(src.value, verbatim, lang, start, end, env.fs) == Err(r.message))
  {
  }

  /** An opening tag whose attribute list has no `src` is rejected with the
      message naming the tag, whatever else it carries. */
  lemma MissingSource(line: string, env: Env, attrs: seq<Attr>)
    requires Classify(line).Opener? && env.attrsOf(Classify(line).text) == Some(attrs)
    requires forall i :: 0 <= i < |attrs| ==> attrs[i].name != "src"
    ensures ReadDirective(line, env) == Rejected(SrcNotSet(Classify(line).tag))
  {
  }
}
