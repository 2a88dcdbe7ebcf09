/**
 * Character-level helpers shared by the comment extractor and the attribute
 * coercions: the whitespace class, the search for the comment terminator,
 * Python's int() on a string, and decimal rendering of line numbers.
 */
module Text {
  import opened Wrappers

  /** ASCII stand-in for the `\s` class of Python regular expressions and for
      the whitespace that int() strips. */
  predicate IsSpace(c: char) {
    c == ' ' || c == '\t' || c == '\n' || c == '\r' || c == '\U{0B}' || c == '\U{0C}'
  }

  predicate AllSpace(s: string) {
    forall k :: 0 <= k < |s| ==> IsSpace(s[k])
  }

  /** A string without leading or trailing whitespace. */
  predicate Trimmed(s: string) {
    s == [] || (!IsSpace(s[0]) && !IsSpace(s[|s| - 1]))
  }

  /** The index just past the run of whitespace that starts at `i`. */
  function SkipSpace(s: string, i: nat): (j: nat)
    requires i <= |s|
    ensures i <= j <= |s|
    ensures forall k :: i <= k < j ==> IsSpace(s[k])
    ensures j < |s| ==> !IsSpace(s[j])
    decreases |s| - i
  {
    if i < |s| && IsSpace(s[i]) then SkipSpace(s, i + 1) else i
  }

  /** The comment terminator `-->` starts at index `k` of `s`. */
  predicate ClosesAt(s: string, k: int) {
    0 <= k && k + 3 <= |s| && s[k] == '-' && s[k + 1] == '-' && s[k + 2] == '>'
  }

  /** The first index at or after `i` where `-->` starts, if any. */
  function FindCloser(s: string, i: nat): (r: Option<nat>)
    requires i <= |s|
    ensures r.Some? ==> i <= r.value && ClosesAt(s, r.value)
    ensures forall k :: i <= k && (r.None? || k < r.value) ==> !ClosesAt(s, k)
    decreases |s| - i
  {
    if i + 3 > |s| then None
    else if ClosesAt(s, i) then Some(i)
    else FindCloser(s, i + 1)
  }

  /** `s` without its trailing whitespace. */
  function TrimEnd(s: string): (r: string)
    ensures r <= s
    ensures forall k :: |r| <= k < |s| ==> IsSpace(s[k])
    ensures r == [] || !IsSpace(r[|r| - 1])
  {
    if s != [] && IsSpace(s[|s| - 1]) then TrimEnd(s[..|s| - 1]) else s
  }

  /** `s` without its leading and trailing whitespace. */
  function Strip(s: string): (r: string)
    ensures Trimmed(r)
  {
    var t := s[SkipSpace(s, 0)..];
    assert t != [] ==> !IsSpace(t[0]);
    TrimEnd(t)
  }

  predicate IsDigit(c: char) {
    '0' <= c <= '9'
  }

  predicate AllDigits(s: string) {
    forall k :: 0 <= k < |s| ==> IsDigit(s[k])
  }

  /** The value of a string of decimal digits, most significant first. */
  function DigitsValue(s: string): nat
    requires AllDigits(s)
  {
    if s == [] then 0
    else 10 * DigitsValue(s[..|s| - 1]) + (s[|s| - 1] as int - '0' as int)
  }

  /** The default of sys.get_int_max_str_digits(): int() refuses a decimal
      string with more digits than this. */
  const MaxStrDigits: nat := 4300

  /** Python's int() on a string, restricted to ASCII: surrounding whitespace,
      an optional sign and between one and MaxStrDigits decimal digits. None
      stands for the ValueError that int() raises on anything else. */
  function ParseInt(s: string): (r: Option<int>)
  {
    var t := Strip(s);
    if t != [] && (t[0] == '+' || t[0] == '-') then
      var ds := t[1..];
      if ds != [] && AllDigits(ds) && |ds| <= MaxStrDigits then
        var v: int := DigitsValue(ds);
        Some(if t[0] == '-' then -v else v)
      else None
    else if t != [] && AllDigits(t) && |t| <= MaxStrDigits then Some(DigitsValue(t))
    else None
  }

  /** The decimal rendering of a line number, as an f-string produces it. */
  function Decimal(n: nat): (s: string)
    ensures s != [] && AllDigits(s) && DigitsValue(s) == n
    ensures s[0] != '0' || n == 0
  {
    var last := ('0' as int + n % 10) as char;
    if n < 10 then [last]
    else
      var prefix := Decimal(n / 10);
      assert (prefix + [last])[..|prefix|] == prefix;
      prefix + [last]
  }

  /** Surrounding whitespace and an explicit sign are accepted by int(), and
      every rendered number reads back as itself. */
  lemma {:induction false} ParseIntDecimal(n: nat, sign: string, lead: string, trail: string)
    requires sign == "" || sign == "+" || sign == "-"
    requires AllSpace(lead) && AllSpace(trail) && |Decimal(n)| <= MaxStrDigits
    ensures ParseInt(lead + sign + Decimal(n) + trail) == Some(if sign == "-" then -(n as int) else n as int)
  {
    var core := sign + Decimal(n);
    assert lead + sign + Decimal(n) + trail == lead + core + trail;
    assert Trimmed(core) by {
      assert core[0] == (if sign == "" then Decimal(n)[0] else sign[0]);
      assert core[|core| - 1] == Decimal(n)[|Decimal(n)| - 1];
    }
    StripAround(lead, core, trail);
    assert DigitsValue(Decimal(n)) == n;
    ParseIntOf(lead + core + trail, sign, Decimal(n), n);
  }

  /** int() on a string whose stripped form is an optional sign and digits. */
  lemma ParseIntOf(s: string, sign: string, ds: string, v: nat)
    requires sign == "" || sign == "+" || sign == "-"
    requires ds != [] && AllDigits(ds) && |ds| <= MaxStrDigits && DigitsValue(ds) == v && Strip(s) == sign + ds
    ensures ParseInt(s) == Some(if sign == "-" then -(v as int) else v as int)
  {
    var t := sign + ds;
    if sign == "" {
      assert t == ds && IsDigit(t[0]);
    } else {
      assert t[0] == sign[0] && t[1..] == ds;
    }
  }

  /** Conversely, whatever int() accepts is, once stripped, an optional sign
      and at most MaxStrDigits digits, and its value is what they denote. */
  lemma ParseIntShape(s: string) returns (sign: string, ds: string)
    requires ParseInt(s).Some?
    ensures sign == "" || sign == "+" || sign == "-"
    ensures ds != [] && AllDigits(ds) && |ds| <= MaxStrDigits && Strip(s) == sign + ds
    ensures ParseInt(s) == Some(if sign == "-" then -(DigitsValue(ds) as int) else DigitsValue(ds) as int)
  {
    var t := Strip(s);
    if t[0] == '+' || t[0] == '-' {
      sign, ds := t[..1], t[1..];
      assert t == sign + ds;
    } else {
      sign, ds := "", t;
      assert t == sign + ds;
    }
  }

  /** int() refuses a number written with more than MaxStrDigits digits, even
      with surrounding whitespace and a sign. */
  lemma ParseIntDigitLimit(lead: string, sign: string, ds: string, trail: string)
    requires sign == "" || sign == "+" || sign == "-"
    requires AllSpace(lead) && AllSpace(trail) && AllDigits(ds) && |ds| > MaxStrDigits
    ensures ParseInt(lead + sign + ds + trail) == None
  {
    var core := sign + ds;
    assert lead + sign + ds + trail == lead + core + trail;
    assert Trimmed(core) by {
      assert core[0] == (if sign == "" then ds[0] else sign[0]);
      assert core[|core| - 1] == ds[|ds| - 1];
    }
    StripAround(lead, core, trail);
    ParseIntTooLong(lead + core + trail, sign, ds);
  }

  lemma ParseIntTooLong(s: string, sign: string, ds: string)
    requires sign == "" || sign == "+" || sign == "-"
    requires AllDigits(ds) && |ds| > MaxStrDigits && Strip(s) == sign + ds
    ensures ParseInt(s) == None
  {
    var t := sign + ds;
    if sign == "" {
      assert t == ds && IsDigit(t[0]);
    } else {
      assert t[0] == sign[0] && t[1..] == ds;
    }
  }

  /** Stripping removes exactly the whitespace around a trimmed core. */
  lemma StripAround(lead: string, core: string, trail: string)
    requires AllSpace(lead) && AllSpace(trail) && Trimmed(core) && core != []
    ensures Strip(lead + core + trail) == core
  {
    var s := lead + core + trail;
    var i := SkipSpace(s, 0);
    assert s[|lead|] == core[0];
    assert i == |lead|;
    var t := s[i..];
    assert t == core + trail;
    var r := TrimEnd(t);
    assert t[|core| - 1] == core[|core| - 1];
    assert |r| == |core|;
    assert r == t[..|r|];
  }
}
