/** The pieces of Python's string library that the quiz parsers rely on:
    `str.strip`, `str.lstrip`, `str.startswith`, `str.split`, `int()` on a
    decimal numeral and `html.escape`. Strings are sequences of Unicode
    code points other than surrogates. */
module PyStr {
  import opened Wrappers

  // ---------------------------------------------------------------------
  // Whitespace and stripping
  // ---------------------------------------------------------------------

  /** The characters Python's `str.isspace` accepts, which are the ones
      `str.strip()` removes. The byte-order mark U+FEFF is not among them. */
  const Whitespace: set<char> := {
      '\U{20}', '\U{9}', '\U{A}', '\U{B}', '\U{C}', '\U{D}', '\U{1C}', '\U{1D}',
      '\U{1E}', '\U{1F}', '\U{85}', '\U{A0}', '\U{1680}', '\U{2000}', '\U{2001}', '\U{2002}',
      '\U{2003}', '\U{2004}', '\U{2005}', '\U{2006}', '\U{2007}', '\U{2008}', '\U{2009}', '\U{200A}',
      '\U{2028}', '\U{2029}', '\U{202F}', '\U{205F}', '\U{3000}'
    }

  predicate IsSpace(c: char)
  {
    c in Whitespace
  }

  /** `s.lstrip()`. */
  function TrimStart(s: string): string
    decreases |s|
  {
    if |s| > 0 && IsSpace(s[0]) then TrimStart(s[1..]) else s
  }

  /** `s.rstrip()`. */
  function TrimEnd(s: string): string
    decreases |s|
  {
    if |s| > 0 && IsSpace(s[|s| - 1]) then TrimEnd(s[..|s| - 1]) else s
  }

  /** `s.strip()`. */
  function Strip(s: string): string
  {
    TrimEnd(TrimStart(s))
  }

  /** `lstrip()` leaves the suffix after the longest all-whitespace prefix. */
  lemma {:induction false} TrimStartSpec(s: string)
    ensures var r := TrimStart(s);
      && |r| <= |s| && r == s[|s| - |r|..]
      && (forall k :: 0 <= k < |s| - |r| ==> IsSpace(s[k]))
      && (r == [] || !IsSpace(r[0]))
    decreases |s|
  {
    if |s| > 0 && IsSpace(s[0]) {
      TrimStartSpec(s[1..]);
    }
  }

  /** `rstrip()` leaves the prefix before the longest all-whitespace suffix. */
  lemma {:induction false} TrimEndSpec(s: string)
    ensures var r := TrimEnd(s);
      && |r| <= |s| && r == s[..|r|]
      && (forall k :: |r| <= k < |s| ==> IsSpace(s[k]))
      && (r == [] || !IsSpace(r[|r| - 1]))
    decreases |s|
  {
    if |s| > 0 && IsSpace(s[|s| - 1]) {
      TrimEndSpec(s[..|s| - 1]);
    }
  }

  /** `strip()` keeps the slice of `s` between its longest all-whitespace
      prefix and suffix. */
  lemma StripSlice(s: string)
    ensures var r := Strip(s);
      var i := |s| - |TrimStart(s)|;
      && 0 <= i <= i + |r| <= |s| && r == s[i..i + |r|]
      && (forall k :: 0 <= k < i ==> IsSpace(s[k]))
      && (forall k :: i + |r| <= k < |s| ==> IsSpace(s[k]))
      && (r == [] || (!IsSpace(r[0]) && !IsSpace(r[|r| - 1])))
  {
    var t := TrimStart(s);
    TrimStartSpec(s);
    TrimEndSpec(t);
    var i := |s| - |t|;
    forall k | i + |TrimEnd(t)| <= k < |s|
      ensures IsSpace(s[k])
    {
      assert s[k] == t[k - i];
    }
  }

  /** `strip()` returns the empty string exactly when `s` is all whitespace. */
  lemma StripSpec(s: string)
    ensures Strip(s) == [] <==> forall k :: 0 <= k < |s| ==> IsSpace(s[k])
    ensures Strip(s) == [] || (!IsSpace(Strip(s)[0]) && !IsSpace(Strip(s)[|Strip(s)| - 1]))
  {
    StripSlice(s);
    var r := Strip(s);
    var i := |s| - |TrimStart(s)|;
    if r == [] {
      forall k | 0 <= k < |s|
        ensures IsSpace(s[k])
      {
        if k >= i { assert i + |r| <= k; }
      }
    } else {
      assert s[i] == r[0];
    }
  }

  /** Stripping a stripped string changes nothing. */
  lemma StripIdempotent(s: string)
    ensures Strip(Strip(s)) == Strip(s)
  {
    var r := Strip(s);
    StripSlice(s);
    if r != [] {
      assert TrimStart(r) == r;
      assert TrimEnd(r) == r;
    }
  }

  /** Leading whitespace in front of a text that neither starts nor ends
      with whitespace is exactly what `strip()` removes. */
  lemma {:induction false} StripPadded(pad: string, s: string)
    requires forall k :: 0 <= k < |pad| ==> IsSpace(pad[k])
    requires s != [] && !IsSpace(s[0]) && !IsSpace(s[|s| - 1])
    ensures Strip(pad + s) == s
    decreases |pad|
  {
    if |pad| == 0 {
      assert pad + s == s;
      assert TrimStart(s) == s;
      assert TrimEnd(s) == s;
    } else {
      assert (pad + s)[1..] == pad[1..] + s;
      StripPadded(pad[1..], s);
      assert TrimStart(pad + s) == TrimStart(pad[1..] + s);
    }
  }

  /** `s.lstrip(c)`: drops every leading occurrence of `c`. */
  function DropLeading(s: string, c: char): string
    decreases |s|
  {
    if |s| > 0 && s[0] == c then DropLeading(s[1..], c) else s
  }

  /** `lstrip(c)` leaves the suffix after the longest run of `c`. */
  lemma {:induction false} DropLeadingSpec(s: string, c: char)
    ensures var r := DropLeading(s, c);
      && |r| <= |s| && r == s[|s| - |r|..]
      && (forall k :: 0 <= k < |s| - |r| ==> s[k] == c)
      && (r == [] || r[0] != c)
    decreases |s|
  {
    if |s| > 0 && s[0] == c {
      DropLeadingSpec(s[1..], c);
    }
  }

  // ---------------------------------------------------------------------
  // Prefixes and splitting
  // ---------------------------------------------------------------------

  /** `s.startswith(p)`. */
  predicate StartsWith(s: string, p: string)
  {
    |p| <= |s| && s[..|p|] == p
  }

  /** A text whose first character differs from a prefix's does not start
      with it. */
  lemma FirstCharBars(s: string, p: string)
    requires |p| > 0 && |s| > 0 && s[0] != p[0]
    ensures !StartsWith(s, p)
  {
    if |p| <= |s| {
      assert s[..|p|][0] == s[0];
    }
  }

  /** `s.split(sep)`: the maximal separator-free pieces between occurrences
      of `sep`; there is always at least one, and more than one exactly when
      `sep` occurs. */
  function Split(s: string, sep: char): (parts: seq<string>)
    ensures |parts| >= 1
    ensures forall k :: 0 <= k < |parts| ==> sep !in parts[k]
    ensures |parts| >= 2 <==> sep in s
    decreases |s|
  {
    if |s| == 0 then [""]
    else
      var rest := Split(s[1..], sep);
      if s[0] == sep then [""] + rest
      else [[s[0]] + rest[0]] + rest[1..]
  }

  /** `sep.join(parts)`, the inverse of `Split`. */
  function Join(parts: seq<string>, sep: char): string
    requires |parts| >= 1
    decreases |parts|
  {
    if |parts| == 1 then parts[0] else parts[0] + [sep] + Join(parts[1..], sep)
  }

  /** Splitting loses nothing: joining the pieces gives back the text. */
  lemma {:induction false} SplitJoin(s: string, sep: char)
    ensures Join(Split(s, sep), sep) == s
    decreases |s|
  {
    if |s| > 0 {
      var rest := Split(s[1..], sep);
      SplitJoin(s[1..], sep);
      if s[0] == sep {
        assert Split(s, sep)[1..] == rest;
      } else {
        var parts := Split(s, sep);
        if |rest| == 1 {
          assert parts == [[s[0]] + rest[0]];
        } else {
          assert parts[1..] == rest[1..];
          assert Join(rest, sep) == rest[0] + [sep] + Join(rest[1..], sep);
        }
      }
    }
  }

  /** A text without the separator splits into itself alone. */
  lemma {:induction false} SplitWithoutSeparator(s: string, sep: char)
    requires sep !in s
    ensures Split(s, sep) == [s]
    decreases |s|
  {
    if |s| > 0 {
      assert sep !in s[1..];
      SplitWithoutSeparator(s[1..], sep);
      assert s == [s[0]] + s[1..];
    }
  }

  /** `s.split(c, 1)[1]`: the text after the first `c`, or `None` where
      Python's indexing would raise `IndexError` because `c` is absent. */
  function AfterFirst(s: string, c: char): (r: Option<string>)
    ensures r.None? <==> c !in s
    ensures r.Some? ==> |r.value| < |s| && r.value == s[|s| - |r.value|..]
    ensures r.Some? ==> s[|s| - |r.value| - 1] == c && c !in s[..|s| - |r.value| - 1]
    decreases |s|
  {
    if |s| == 0 then None
    else if s[0] == c then Some(s[1..])
    else
      var r := AfterFirst(s[1..], c);
      if r.Some? then
        var n := |s| - |r.value| - 1;
        assert s[..n] == [s[0]] + s[1..][..n - 1];
        r
      else
        assert s == [s[0]] + s[1..];
        r
  }

  /** The text after the first `c` of `p + [c] + x`, when `p` holds no `c`,
      is `x`. */
  lemma {:induction false} AfterFirstAt(p: string, c: char, x: string)
    requires c !in p
    ensures AfterFirst(p + [c] + x, c) == Some(x)
    decreases |p|
  {
    var s := p + [c] + x;
    if |p| == 0 {
      assert s == [c] + x;
      assert s[1..] == x;
    } else {
      assert s[1..] == p[1..] + [c] + x;
      AfterFirstAt(p[1..], c, x);
    }
  }

  /** When `c` occurs only once, `s.split(c)[1]` and `s.split(c, 1)[1]`
      are the same text. */
  lemma {:induction false} SecondFieldIsRest(s: string, c: char)
    requires AfterFirst(s, c).Some? && c !in AfterFirst(s, c).value
    ensures |Split(s, c)| >= 2 && Split(s, c)[1] == AfterFirst(s, c).value
    decreases |s|
  {
    if s[0] == c {
      SplitWithoutSeparator(s[1..], c);
    } else {
      SecondFieldIsRest(s[1..], c);
    }
  }

  // ---------------------------------------------------------------------
  // Decimal numerals and int()
  // ---------------------------------------------------------------------

  predicate IsDigit(c: char)
  {
    '0' <= c <= '9'
  }

  /** No printable ASCII character other than the space is whitespace. */
  lemma GraphicNotSpace(c: char)
    requires '!' <= c <= '~'
    ensures !IsSpace(c)
  {
  }

  /** No decimal digit is whitespace. */
  lemma DigitNotSpace(c: char)
    requires IsDigit(c)
    ensures !IsSpace(c)
  {
  }

  function DigitValue(c: char): (d: nat)
    requires IsDigit(c)
    ensures d < 10
  {
    assert '0' as int <= c as int <= '9' as int;
    c as int - '0' as int
  }

  function DigitChar(d: nat): (c: char)
    requires d < 10
    ensures IsDigit(c) && DigitValue(c) == d
  {
    ('0' as int + d) as char
  }

  /** The length of the run of decimal digits that `s` starts with. */
  function DigitRun(s: string): (n: nat)
    ensures n <= |s|
    ensures forall k :: 0 <= k < n ==> IsDigit(s[k])
    ensures n == |s| || !IsDigit(s[n])
    decreases |s|
  {
    if |s| > 0 && IsDigit(s[0]) then 1 + DigitRun(s[1..]) else 0
  }

  predicate AllDigits(s: string)
  {
    forall k :: 0 <= k < |s| ==> IsDigit(s[k])
  }

  /** The value of a numeral, most significant digit first. */
  function DigitsValue(s: string): nat
    requires AllDigits(s)
    decreases |s|
  {
    if |s| == 0 then 0
    else DigitsValue(s[..|s| - 1]) * 10 + DigitValue(s[|s| - 1])
  }

  /** The numeral of `n` in decimal, without leading zeros. */
  function Decimal(n: nat): (s: string)
    ensures |s| >= 1 && AllDigits(s)
    decreases n
  {
    if n < 10 then [DigitChar(n)] else Decimal(n / 10) + [DigitChar(n % 10)]
  }

  /** Python's `int()` on an already stripped text: an optional sign and
      one or more decimal digits; `None` stands for the `ValueError` it
      raises on anything else. */
  function ParseInt(s: string): Option<int>
  {
    if |s| > 0 && (s[0] == '+' || s[0] == '-') then
      var digits := s[1..];
      if |digits| > 0 && AllDigits(digits) then
        var v: int := DigitsValue(digits);
        Some(if s[0] == '-' then -v else v)
      else None
    else if |s| > 0 && AllDigits(s) then Some(DigitsValue(s))
    else None
  }

  /** Reading back the numeral of `n` gives `n`. */
  lemma {:induction false} DecimalValue(n: nat)
    ensures DigitsValue(Decimal(n)) == n
    decreases n
  {
    if n >= 10 {
      var s := Decimal(n);
      DecimalValue(n / 10);
      assert s[..|s| - 1] == Decimal(n / 10);
    }
  }

  /** `int()` inverts decimal rendering, for both signs. */
  lemma ParseIntDecimal(n: nat)
    ensures ParseInt(Decimal(n)) == Some(n)
    ensures ParseInt("-" + Decimal(n)) == Some(-(n as int))
  {
    DecimalValue(n);
    var s := "-" + Decimal(n);
    assert s[1..] == Decimal(n);
  }

  /** A numeral `int()` accepts holds no other character than a sign and
      digits; in particular no colon. */
  lemma ParseIntCharacters(s: string, c: char)
    requires ParseInt(s).Some? && !IsDigit(c) && c != '+' && c != '-'
    ensures c !in s
  {
    forall k | 0 <= k < |s|
      ensures s[k] != c
    {
      if k > 0 && (s[0] == '+' || s[0] == '-') {
        assert s[k] == s[1..][k - 1];
      }
    }
  }

  // ---------------------------------------------------------------------
  // html.escape
  // ---------------------------------------------------------------------

  /** `html.escape` with `quote=True`, character by character. */
  function EscapeChar(c: char): string
  {
    if c == '&' then "&amp;"
    else if c == '<' then "&lt;"
    else if c == '>' then "&gt;"
    else if c == '"' then "&quot;"
    else if c == '\'' then "&#x27;"
    else [c]
  }

  predicate IsMarkup(c: char)
  {
    c == '<' || c == '>' || c == '"' || c == '\''
  }

  /** `html.escape(s)`: never shorter than `s`, and no markup-significant
      character survives it. */
  function Escape(s: string): (r: string)
    ensures |r| >= |s|
    ensures forall k :: 0 <= k < |r| ==> !IsMarkup(r[k])
    decreases |s|
  {
    if |s| == 0 then [] else EscapeChar(s[0]) + Escape(s[1..])
  }

  /** The inverse of `Escape` on the five entities it produces. */
  function Unescape(s: string): string
    decreases |s|
  {
    if StartsWith(s, "&amp;") then "&" + Unescape(s[5..])
    else if StartsWith(s, "&lt;") then "<" + Unescape(s[4..])
    else if StartsWith(s, "&gt;") then ">" + Unescape(s[4..])
    else if StartsWith(s, "&quot;") then "\"" + Unescape(s[6..])
    else if StartsWith(s, "&#x27;") then "'" + Unescape(s[6..])
    else if |s| == 0 then []
    else [s[0]] + Unescape(s[1..])
  }

  /** Decoding an escaped character followed by more text decodes the
      character and then the rest. */
  lemma UnescapeEscapeChar(c: char, t: string)
    ensures Unescape(EscapeChar(c) + t) == [c] + Unescape(t)
  {
    var e := EscapeChar(c);
    var u := e + t;
    assert u[..|e|] == e && u[|e|..] == t;
    if c == '&' {
      assert StartsWith(u, "&amp;");
    } else if c == '<' {
      assert u[1] == 'l' && (|u| >= 5 ==> u[..5][1] == u[1]);
      assert StartsWith(u, "&lt;");
    } else if c == '>' {
      assert u[1] == 'g' && (|u| >= 5 ==> u[..5][1] == u[1]) && u[..4][1] == u[1];
      assert StartsWith(u, "&gt;");
    } else if c == '"' {
      assert u[1] == 'q' && u[..5][1] == u[1] && u[..4][1] == u[1];
      assert StartsWith(u, "&quot;");
    } else if c == '\'' {
      assert u[1] == '#' && u[..5][1] == u[1] && u[..4][1] == u[1] && u[..6][1] == u[1];
      assert StartsWith(u, "&#x27;");
    } else {
      assert u[0] == c && u[1..] == t;
      assert forall n :: 0 < n <= |u| ==> u[..n][0] == c;
    }
  }

  /** Escaping loses nothing: the escaped text decodes to the original. */
  lemma {:induction false} UnescapeEscape(s: string)
    ensures Unescape(Escape(s)) == s
    decreases |s|
  {
    if |s| > 0 {
      UnescapeEscape(s[1..]);
      UnescapeEscapeChar(s[0], Escape(s[1..]));
      assert s == [s[0]] + s[1..];
    }
  }

  /** Text with nothing to escape is left as it is. */
  lemma {:induction false} EscapeIdentity(s: string)
    requires forall k :: 0 <= k < |s| ==> s[k] != '&' && !IsMarkup(s[k])
    ensures Escape(s) == s
    decreases |s|
  {
    if |s| > 0 {
      EscapeIdentity(s[1..]);
    }
  }
}
