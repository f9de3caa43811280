/**
  The scanning primitives of `StringUtils` (lib/haml2erb/string_utils.rb) and the
  scanners that other classes repeat with small differences:

  - the `#{...}` rewrites (`process_interpolation`, and the substitution without
    the backslash escape that `AttributeParser` and `LineProcessor` use);
  - a quote-aware search for the delimiter that closes an opening one
    (`find_closing_delimiter`, `extract_nested_hash_attribute`, and
    `ElementConverter#extract_balanced_braces`, which ignores backslashes);
  - a quote-aware split (`smart_split`, which also tracks parentheses and
    backslashes, and `AttributeParser#smart_split_attributes`, which does not).

  Each loop is a method proved equal to a recursive function that runs the
  same scan; each scan is also described by a left fold over the prefix read so
  far (`ScanTo`, `SplitPrefix`), which states what the result means.
 */
module StringUtils {
  import opened Wrappers
  import opened Text

  // ---------------------------------------------------------------------------
  // #{...} rewriting
  // ---------------------------------------------------------------------------

  /**
    When `s` starts with `#{`, then at least one character other than `}`, then
    a `}`, the index of that `}`: the extent of a match of `#{([^}]+)}` at the
    start of `s`.
   */
  function InterpolationClose(s: String): (r: Option<nat>)
    ensures r.Some? ==> 2 < r.value < |s| && s[0] == '#' && s[1] == '{'
    ensures r.Some? ==> s[r.value] == '}' && forall k :: 2 <= k < r.value ==> s[k] != '}'
    ensures r.None? ==> |s| < 3 || s[0] != '#' || s[1] != '{' || s[2] == '}' || forall k :: 2 <= k < |s| ==> s[k] != '}'
  {
    if |s| >= 3 && s[0] == '#' && s[1] == '{' && s[2] != '}' then IndexOfChar(s, '}', 2)
    else None
  }

  /**
    `process_interpolation`: scanning from the left, `\#{code}` becomes the
    literal `#{code}` and `#{code}` becomes `<%= code %>`; every other
    character is copied.
   */
  function ProcessInterpolation(s: String): String
    decreases |s|
  {
    if s == [] then []
    else if s[0] == '\\' && InterpolationClose(s[1..]).Some? then
      var e := InterpolationClose(s[1..]).value + 1;
      s[1..e + 1] + ProcessInterpolation(s[e + 1..])
    else if InterpolationClose(s).Some? then
      var e := InterpolationClose(s).value;
      "<%= " + s[2..e] + " %>" + ProcessInterpolation(s[e + 1..])
    else [s[0]] + ProcessInterpolation(s[1..])
  }

  /**
    The substitution of `#{([^}]+)}` by `<%= \1 %>` with no escape
    (`convert_ruby_interpolation`, and the first step of a plain text line).
   */
  function RewriteInterpolation(s: String): String
    decreases |s|
  {
    if s == [] then []
    else if InterpolationClose(s).Some? then
      var e := InterpolationClose(s).value;
      "<%= " + s[2..e] + " %>" + RewriteInterpolation(s[e + 1..])
    else [s[0]] + RewriteInterpolation(s[1..])
  }

  /** A well-formed interpolation body: not empty and without `}`. */
  predicate InterpolationBody(x: String)
  {
    x != [] && '}' !in x
  }

  lemma InterpolationCloseOf(x: String, b: String)
    requires InterpolationBody(x)
    ensures InterpolationClose("#{" + x + "}" + b) == Some(|x| + 2)
  {
    var s := "#{" + x + "}" + b;
    assert s[|x| + 2] == '}';
    forall k | 2 <= k < |x| + 2 ensures s[k] != '}' {
      assert s[k] == x[k - 2];
    }
  }

  /** `#{x}` becomes `<%= x %>` and the scan goes on after the `}`. */
  lemma ProcessInterpolationOutput(x: String, b: String)
    requires InterpolationBody(x)
    ensures ProcessInterpolation("#{" + x + "}" + b) == "<%= " + x + " %>" + ProcessInterpolation(b)
  {
    var s := "#{" + x + "}" + b;
    InterpolationCloseOf(x, b);
    assert s[2..|x| + 2] == x;
    assert s[|x| + 3..] == b;
  }

  /** `\#{x}` becomes the literal `#{x}`. */
  lemma ProcessInterpolationEscaped(x: String, b: String)
    requires InterpolationBody(x)
    ensures ProcessInterpolation("\\#{" + x + "}" + b) == "#{" + x + "}" + ProcessInterpolation(b)
  {
    var s := "\\#{" + x + "}" + b;
    assert s[1..] == "#{" + x + "}" + b;
    InterpolationCloseOf(x, b);
    assert s[1..|x| + 4] == "#{" + x + "}";
    assert s[|x| + 4..] == b;
  }

  /** Text without `#` and `\` is copied as it is, whatever follows it. */
  lemma {:induction false} ProcessInterpolationPlain(a: String, b: String)
    requires '#' !in a && '\\' !in a
    ensures ProcessInterpolation(a + b) == a + ProcessInterpolation(b)
    decreases |a|
  {
    if a != [] {
      var s := a + b;
      assert s[0] == a[0];
      assert s[1..] == a[1..] + b;
      ProcessInterpolationPlain(a[1..], b);
      assert a == [a[0]] + a[1..];
    } else {
      assert a + b == b;
    }
  }

  /** A text in which `#{` never occurs comes back unchanged. */
  lemma {:induction false} ProcessInterpolationIdentity(s: String)
    requires !Contains(s, "#{")
    ensures ProcessInterpolation(s) == s
    decreases |s|
  {
    if s != [] {
      if |s| >= 2 {
        NotContainsPair(s, "#{", 0);
      }
      if |s| >= 3 {
        NotContainsPair(s, "#{", 1);
      }
      assert InterpolationClose(s).None?;
      assert s[0] == '\\' ==> InterpolationClose(s[1..]).None?;
      NotContainsTail(s, "#{");
      ProcessInterpolationIdentity(s[1..]);
    }
  }

  /** `#{x}` becomes `<%= x %>` under the unescaped substitution too. */
  lemma RewriteInterpolationOutput(x: String, b: String)
    requires InterpolationBody(x)
    ensures RewriteInterpolation("#{" + x + "}" + b) == "<%= " + x + " %>" + RewriteInterpolation(b)
  {
    var s := "#{" + x + "}" + b;
    InterpolationCloseOf(x, b);
    assert s[2..|x| + 2] == x;
    assert s[|x| + 3..] == b;
  }

  /** Text without `#` is copied as it is under the unescaped substitution. */
  lemma {:induction false} RewriteInterpolationPlain(a: String, b: String)
    requires '#' !in a
    ensures RewriteInterpolation(a + b) == a + RewriteInterpolation(b)
    decreases |a|
  {
    if a != [] {
      var s := a + b;
      assert s[0] == a[0];
      assert InterpolationClose(s).None?;
      assert s[1..] == a[1..] + b;
      RewriteInterpolationPlain(a[1..], b);
      assert a == [a[0]] + a[1..];
    } else {
      assert a + b == b;
    }
  }

  /**
    The two rewrites differ only in their treatment of a backslash: on text
    without one they agree.
   */
  lemma {:induction false} RewritesAgreeWithoutBackslash(s: String)
    requires '\\' !in s
    ensures ProcessInterpolation(s) == RewriteInterpolation(s)
    decreases |s|
  {
    if s != [] {
      var c := InterpolationClose(s);
      if c.Some? {
        assert '\\' !in s[c.value + 1..];
        RewritesAgreeWithoutBackslash(s[c.value + 1..]);
      } else {
        assert '\\' !in s[1..];
        RewritesAgreeWithoutBackslash(s[1..]);
      }
    }
  }

  /**
    The escaped form is where the two rewrites part: the unescaped one keeps the
    backslash and rewrites what follows it (compare `ProcessInterpolationEscaped`).
   */
  lemma RewriteKeepsBackslash(x: String, b: String)
    requires InterpolationBody(x)
    ensures RewriteInterpolation("\\#{" + x + "}" + b) == "\\<%= " + x + " %>" + RewriteInterpolation(b)
  {
    var t := "#{" + x + "}" + b;
    var s := "\\#{" + x + "}" + b;
    assert s[0] == '\\';
    assert InterpolationClose(s).None?;
    assert s[1..] == t;
    assert RewriteInterpolation(s) == "\\" + RewriteInterpolation(t);
    RewriteInterpolationOutput(x, b);
  }

  // ---------------------------------------------------------------------------
  // Quote-aware scanning
  // ---------------------------------------------------------------------------

  /** Where a scan stands: outside any string literal, or inside one opened by `q`. */
  datatype Quote = Unquoted | Quoted(q: char)

  /**
    The quote state after reading the character at `i`. An unquoted `'` or `"`
    opens a literal, and the same character closes it again; with `escapes`,
    not when the character before it is a backslash.
   */
  function NextQuote(s: String, i: nat, st: Quote, escapes: bool): Quote
    requires i < |s|
  {
    match st
    case Unquoted => if IsQuote(s[i]) then Quoted(s[i]) else Unquoted
    case Quoted(q) => if s[i] == q && (!escapes || i == 0 || s[i - 1] != '\\') then Unquoted else st
  }

  /** The state of a delimiter scan: quoting, and the count of unquoted opens minus closes. */
  datatype Scan = Scan(quote: Quote, depth: int)

  /** One character of a delimiter scan: quotes first, then `open` and `close` outside quotes. */
  function ScanStep(s: String, i: nat, sc: Scan, open: char, close: char, escapes: bool): Scan
    requires i < |s|
  {
    if sc.quote.Quoted? || IsQuote(s[i]) then Scan(NextQuote(s, i, sc.quote, escapes), sc.depth)
    else if s[i] == open then Scan(sc.quote, sc.depth + 1)
    else if s[i] == close then Scan(sc.quote, sc.depth - 1)
    else sc
  }

  /** The scan state after reading `s[from..k]`, starting outside quotes at depth zero. */
  function ScanTo(s: String, from: nat, k: nat, open: char, close: char, escapes: bool): Scan
    requires from <= k <= |s|
    decreases k - from
  {
    if k == from then Scan(Unquoted, 0)
    else ScanStep(s, k - 1, ScanTo(s, from, k - 1, open, close, escapes), open, close, escapes)
  }

  /**
    The character at `k` is an unquoted `close` that brings the count of a scan
    started at `from` back to zero.
   */
  predicate ClosesAt(s: String, from: nat, k: nat, open: char, close: char, escapes: bool)
    requires from <= k < |s|
  {
    var sc := ScanTo(s, from, k, open, close, escapes);
    sc.quote.Unquoted? && !IsQuote(s[k]) && s[k] != open && s[k] == close && sc.depth == 1
  }

  /**
    The scan loop shared by `find_closing_delimiter`, `extract_nested_hash_attribute`
    and `ElementConverter#extract_balanced_braces`, resumed at `i` in state
    (`st`, `depth`): the index at which the count returns to zero, if any.
   */
  function ClosingFrom(s: String, i: nat, st: Quote, depth: int, open: char, close: char, escapes: bool): (r: Option<nat>)
    requires i <= |s|
    ensures r.Some? ==> i <= r.value < |s| && s[r.value] == close
    decreases |s| - i
  {
    if i == |s| then None
    else if st.Quoted? || IsQuote(s[i]) then ClosingFrom(s, i + 1, NextQuote(s, i, st, escapes), depth, open, close, escapes)
    else if s[i] == open then ClosingFrom(s, i + 1, st, depth + 1, open, close, escapes)
    else if s[i] == close then
      if depth == 1 then Some(i) else ClosingFrom(s, i + 1, st, depth - 1, open, close, escapes)
    else ClosingFrom(s, i + 1, st, depth, open, close, escapes)
  }

  /** Resumed in the state the fold reaches at `i`, the scan finds the first closing position at or after `i`. */
  lemma {:induction false} ClosingFromScan(s: String, from: nat, i: nat, open: char, close: char, escapes: bool)
    requires from <= i <= |s|
    ensures var sc := ScanTo(s, from, i, open, close, escapes);
      var r := ClosingFrom(s, i, sc.quote, sc.depth, open, close, escapes);
      (r.Some? ==> ClosesAt(s, from, r.value, open, close, escapes)
                   && forall k :: i <= k < r.value ==> !ClosesAt(s, from, k, open, close, escapes))
      && (r.None? ==> forall k :: i <= k < |s| ==> !ClosesAt(s, from, k, open, close, escapes))
    decreases |s| - i
  {
    if i < |s| {
      var sc := ScanTo(s, from, i, open, close, escapes);
      if !ClosesAt(s, from, i, open, close, escapes) {
        assert ScanTo(s, from, i + 1, open, close, escapes) == ScanStep(s, i, sc, open, close, escapes);
        ClosingFromScan(s, from, i + 1, open, close, escapes);
      }
    }
  }

  /**
    The scan started at `from` returns the first position at which the count of
    unquoted opens minus closes comes back to zero on a `close`, and nothing
    when there is none.
   */
  lemma ClosingIsFirstHit(s: String, from: nat, open: char, close: char, escapes: bool)
    requires from <= |s|
    ensures var r := ClosingFrom(s, from, Unquoted, 0, open, close, escapes);
      (r.Some? ==> ClosesAt(s, from, r.value, open, close, escapes)
                   && forall k :: from <= k < r.value ==> !ClosesAt(s, from, k, open, close, escapes))
      && (r.None? ==> forall k :: from <= k < |s| ==> !ClosesAt(s, from, k, open, close, escapes))
  {
    ClosingFromScan(s, from, from, open, close, escapes);
  }

  /** Inside a literal the count does not move, whatever the character. */
  lemma {:induction false} QuotedIsInert(s: String, from: nat, k: nat, open: char, close: char, escapes: bool)
    requires from <= k < |s| && ScanTo(s, from, k, open, close, escapes).quote.Quoted?
    ensures ScanTo(s, from, k + 1, open, close, escapes).depth == ScanTo(s, from, k, open, close, escapes).depth
    ensures !ClosesAt(s, from, k, open, close, escapes)
  {
  }

  /** With `escapes`, a quote character right after a backslash does not end the literal. */
  lemma EscapedQuoteStaysOpen(s: String, from: nat, k: nat, open: char, close: char)
    requires from <= k < |s| && 0 < k && s[k - 1] == '\\'
    requires ScanTo(s, from, k, open, close, true).quote.Quoted?
    ensures ScanTo(s, from, k + 1, open, close, true).quote == ScanTo(s, from, k, open, close, true).quote
  {
  }

  /** A scan is only ever inside a literal opened by a quote character. */
  lemma {:induction false} ScanQuoteIsQuote(s: String, from: nat, k: nat, open: char, close: char, escapes: bool)
    requires from <= k <= |s|
    ensures ScanTo(s, from, k, open, close, escapes).quote.Quoted? ==> IsQuote(ScanTo(s, from, k, open, close, escapes).quote.q)
    decreases k - from
  {
    if k > from {
      ScanQuoteIsQuote(s, from, k - 1, open, close, escapes);
    }
  }

  /** Characters that are not quotes leave the quote state of a scan as it was. */
  lemma {:induction false} QuoteStateOverPlain(s: String, from: nat, i: nat, k: nat, open: char, close: char, escapes: bool)
    requires from <= i <= k <= |s|
    requires forall m :: i <= m < k ==> !IsQuote(s[m])
    ensures ScanTo(s, from, k, open, close, escapes).quote == ScanTo(s, from, i, open, close, escapes).quote
    decreases k - i
  {
    if k > i {
      QuoteStateOverPlain(s, from, i, k - 1, open, close, escapes);
      ScanQuoteIsQuote(s, from, k - 1, open, close, escapes);
    }
  }

  /**
    Over characters that are neither quotes nor, outside a literal, delimiters,
    the scan state stays as it was.
   */
  lemma {:induction false} ScanOverInert(s: String, from: nat, i: nat, k: nat, open: char, close: char, escapes: bool)
    requires from <= i <= k <= |s|
    requires forall m :: i <= m < k ==> !IsQuote(s[m])
    requires ScanTo(s, from, i, open, close, escapes).quote.Unquoted? ==> forall m :: i <= m < k ==> s[m] != open && s[m] != close
    ensures forall m :: i <= m <= k ==> ScanTo(s, from, m, open, close, escapes) == ScanTo(s, from, i, open, close, escapes)
    decreases k - i
  {
    if k > i {
      ScanOverInert(s, from, i, k - 1, open, close, escapes);
      ScanQuoteIsQuote(s, from, k - 1, open, close, escapes);
    }
  }

  /** `find_closing_delimiter`: the first index at which the unquoted count of `open` minus `close` reaches zero. */
  method FindClosingDelimiter(text: String, open: char, close: char) returns (pos: Option<nat>)
    ensures pos == ClosingFrom(text, 0, Unquoted, 0, open, close, true)
    ensures pos.Some? ==> pos.value < |text| && text[pos.value] == close && ClosesAt(text, 0, pos.value, open, close, true)
    ensures pos.Some? ==> forall k :: 0 <= k < pos.value ==> !ClosesAt(text, 0, k, open, close, true)
    ensures pos.None? ==> forall k :: 0 <= k < |text| ==> !ClosesAt(text, 0, k, open, close, true)
  {
    ClosingIsFirstHit(text, 0, open, close, true);
    var depth := 0;
    var quote := Unquoted;
    var i := 0;
    while i < |text|
      invariant 0 <= i <= |text|
      invariant ClosingFrom(text, i, quote, depth, open, close, true) == ClosingFrom(text, 0, Unquoted, 0, open, close, true)
    {
      var c := text[i];
      if quote.Unquoted? && IsQuote(c) {
        quote := Quoted(c);
      } else if quote.Quoted? && c == quote.q && (i == 0 || text[i - 1] != '\\') {
        quote := Unquoted;
      } else if quote.Unquoted? {
        if c == open {
          depth := depth + 1;
        } else if c == close {
          depth := depth - 1;
          if depth == 0 {
            return Some(i);
          }
        }
      }
      i := i + 1;
    }
    return None;
  }

  /** The text inside a pair of braces that opens a string, and what follows the pair. */
  datatype Braced = Braced(content: String, remaining: String)

  /**
    `extract_balanced_braces`: the stripped text must start with `{`; the
    matching `}` is found by the delimiter scan. `escapes` is true for
    `StringUtils` and false for `ElementConverter`, whose copy of the scan does
    not look at backslashes.
   */
  function ExtractBalancedBraces(text: String, escapes: bool): (r: Option<Braced>)
    ensures r.Some? ==> Strip(text) == "{" + r.value.content + "}" + r.value.remaining
    ensures r.Some? ==> ClosesAt(Strip(text), 0, |r.value.content| + 1, '{', '}', escapes)
    ensures r.Some? ==> forall k :: 0 <= k <= |r.value.content| ==> !ClosesAt(Strip(text), 0, k, '{', '}', escapes)
    ensures r.None? <==> !StartsWith(Strip(text), "{")
                         || forall k :: 0 <= k < |Strip(text)| ==> !ClosesAt(Strip(text), 0, k, '{', '}', escapes)
  {
    var t := Strip(text);
    ClosingIsFirstHit(t, 0, '{', '}', escapes);
    if !StartsWith(t, "{") then None
    else match ClosingFrom(t, 0, Unquoted, 0, '{', '}', escapes)
      case None => None
      case Some(p) =>
        assert t == "{" + t[1..p] + "}" + t[p + 1..];
        Some(Braced(t[1..p], t[p + 1..]))
  }

  /** Over characters that are neither quotes nor delimiters, an unquoted scan only moves on. */
  lemma {:induction false} ClosingOverPlain(s: String, i: nat, k: nat, depth: int, open: char, close: char, escapes: bool)
    requires i <= k <= |s|
    requires forall m :: i <= m < k ==> !IsQuote(s[m]) && s[m] != open && s[m] != close
    ensures ClosingFrom(s, i, Unquoted, depth, open, close, escapes) == ClosingFrom(s, k, Unquoted, depth, open, close, escapes)
    decreases k - i
  {
    if i < k {
      ClosingOverPlain(s, i + 1, k, depth, open, close, escapes);
    }
  }

  /** Braces around text without quotes or braces: the text inside and what follows the `}`. */
  lemma BracedPlain(h: String, rest: String, escapes: bool)
    requires forall m :: 0 <= m < |h| ==> !IsQuote(h[m]) && h[m] != '{' && h[m] != '}'
    requires rest == [] || !IsSpace(rest[|rest| - 1])
    ensures ExtractBalancedBraces("{" + h + "}" + rest, escapes) == Some(Braced(h, rest))
  {
    var t := "{" + h + "}" + rest;
    StripTrimmed(t);
    forall m | 1 <= m < |h| + 1 ensures !IsQuote(t[m]) && t[m] != '{' && t[m] != '}' {
      assert t[m] == h[m - 1];
    }
    ClosingOverPlain(t, 1, |h| + 1, 1, '{', '}', escapes);
    assert t[|h| + 1] == '}';
    assert ClosingFrom(t, 0, Unquoted, 0, '{', '}', escapes) == Some(|h| + 1);
    assert t[1..|h| + 1] == h;
    assert t[|h| + 2..] == rest;
  }

  /** Inside a literal opened by `q`, the scan skips to just after the next `q`. */
  lemma {:induction false} ClosingFromQuoted(s: String, j: nat, k: nat, q: char, depth: int, open: char, close: char, escapes: bool)
    requires j <= k < |s| && s[k] == q
    requires forall m :: j <= m < k ==> s[m] != q
    requires escapes ==> k == 0 || s[k - 1] != '\\'
    ensures ClosingFrom(s, j, Quoted(q), depth, open, close, escapes) == ClosingFrom(s, k + 1, Unquoted, depth, open, close, escapes)
    decreases k - j
  {
    if j < k {
      ClosingFromQuoted(s, j + 1, k, q, depth, open, close, escapes);
    }
  }

  /** The scan from an opening brace over plain text, one quoted value and a closing brace. */
  lemma ClosingAfterQuoted(t: String, n: nat, e: nat, q: char, escapes: bool)
    requires 0 < n < e < |t| - 1 && t[0] == '{' && t[n] == q && t[e] == q && t[e + 1] == '}' && IsQuote(q)
    requires forall m :: 1 <= m < n ==> !IsQuote(t[m]) && t[m] != '{' && t[m] != '}'
    requires forall m :: n + 1 <= m < e ==> t[m] != q
    requires escapes ==> t[e - 1] != '\\'
    ensures ClosingFrom(t, 0, Unquoted, 0, '{', '}', escapes) == Some(e + 1)
  {
    ClosingOverPlain(t, 1, n, 1, '{', '}', escapes);
    ClosingFromQuoted(t, n + 1, e, q, 1, '{', '}', escapes);
    assert NextQuote(t, n, Unquoted, escapes) == Quoted(q);
  }

  /** Inside a literal opened by `q` that no later `q` ends, the scan finds no closing position. */
  lemma {:induction false} ClosingFromOpen(s: String, j: nat, q: char, depth: int, open: char, close: char, escapes: bool)
    requires j <= |s|
    requires forall m :: j <= m < |s| ==> s[m] != q || (escapes && 0 < m && s[m - 1] == '\\')
    ensures ClosingFrom(s, j, Quoted(q), depth, open, close, escapes) == None
    decreases |s| - j
  {
    if j < |s| {
      assert s[j] != q || (escapes && 0 < j && s[j - 1] == '\\');
      assert NextQuote(s, j, Quoted(q), escapes) == Quoted(q);
      ClosingFromOpen(s, j + 1, q, depth, open, close, escapes);
    }
  }

  /**
    Braces around a quoted value whose last character is a backslash: the scan
    without escapes ends the literal at the closing quote and finds the `}`,
    the scan with escapes keeps the literal open to the end and finds nothing.
   */
  lemma EscapedQuoteScans(t: String, h: String, q: char, v: String)
    requires t == "{" + (h + [q] + (v + ['\\']) + [q]) + "}"
    requires forall m :: 0 <= m < |h| ==> !IsQuote(h[m]) && h[m] != '{' && h[m] != '}'
    requires IsQuote(q) && q !in v
    ensures ExtractBalancedBraces(t, false) == Some(Braced(h + [q] + (v + ['\\']) + [q], []))
    ensures ExtractBalancedBraces(t, true) == None
  {
    var w := v + ['\\'];
    assert t + [] == t;
    BracedQuoted(t, h, q, w, [], false);
    EscapedQuoteOpen(t, h, q, v);
    BracedNoneAt(t, true);
  }

  lemma EscapedQuoteOpen(t: String, h: String, q: char, v: String)
    requires t == "{" + (h + [q] + (v + ['\\']) + [q]) + "}"
    requires forall m :: 0 <= m < |h| ==> !IsQuote(h[m]) && h[m] != '{' && h[m] != '}'
    requires IsQuote(q) && q !in v
    ensures ClosingFrom(t, 0, Unquoted, 0, '{', '}', true) == None
  {
    var inner := h + [q] + (v + ['\\']) + [q];
    var n := |h| + 1;
    var e := n + |v| + 2;
    assert |inner| == e;
    assert |t| == e + 2;
    forall m | 1 <= m < n ensures !IsQuote(t[m]) && t[m] != '{' && t[m] != '}' {
      assert t[m] == inner[m - 1] == h[m - 1];
    }
    assert t[n] == inner[n - 1] == q;
    forall m | n + 1 <= m < |t| ensures t[m] != q || (0 < m && t[m - 1] == '\\') {
      if m < e - 1 {
        assert t[m] == inner[m - 1] == v[m - n - 1];
      } else if m == e - 1 {
        assert t[m] == inner[m - 1] == '\\';
      } else if m == e {
        assert t[m - 1] == inner[m - 2] == '\\';
      }
    }
    OpenAfterQuote(t, n, q);
  }

  /** The scan from an opening brace over plain text into a literal that no later quote ends. */
  lemma OpenAfterQuote(t: String, n: nat, q: char)
    requires 0 < n < |t| && t[0] == '{' && t[n] == q && IsQuote(q)
    requires forall m :: 1 <= m < n ==> !IsQuote(t[m]) && t[m] != '{' && t[m] != '}'
    requires forall m :: n + 1 <= m < |t| ==> t[m] != q || (0 < m && t[m - 1] == '\\')
    ensures ClosingFrom(t, 0, Unquoted, 0, '{', '}', true) == None
  {
    ClosingOverPlain(t, 1, n, 1, '{', '}', true);
    assert NextQuote(t, n, Unquoted, true) == Quoted(q);
    ClosingFromOpen(t, n + 1, q, 1, '{', '}', true);
  }

  /** The extraction fails when the scan finds no closing position. */
  lemma BracedNoneAt(t: String, escapes: bool)
    requires Strip(t) == t
    requires ClosingFrom(t, 0, Unquoted, 0, '{', '}', escapes) == None
    ensures ExtractBalancedBraces(t, escapes) == None
  {
  }

  /** A quoted value after plain text inside the braces: the braces in the value do not count. */
  lemma BracedQuoted(t: String, h: String, q: char, v: String, rest: String, escapes: bool)
    requires t == "{" + (h + [q] + v + [q]) + "}" + rest
    requires forall m :: 0 <= m < |h| ==> !IsQuote(h[m]) && h[m] != '{' && h[m] != '}'
    requires IsQuote(q) && q !in v
    requires escapes ==> v == [] || v[|v| - 1] != '\\'
    requires rest == [] || !IsSpace(rest[|rest| - 1])
    ensures ExtractBalancedBraces(t, escapes) == Some(Braced(h + [q] + v + [q], rest))
  {
    var inner := h + [q] + v + [q];
    BracedQuotedScan(t, h, q, v, rest, escapes);
    BracedAt(t, |inner| + 1, escapes);
    assert t[1..|inner| + 1] == inner;
    assert t[|inner| + 2..] == rest;
  }

  /** The extraction of a text that starts with `{` and has no surrounding whitespace, from the scan's result. */
  lemma BracedAt(t: String, p: nat, escapes: bool)
    requires Strip(t) == t && StartsWith(t, "{")
    requires ClosingFrom(t, 0, Unquoted, 0, '{', '}', escapes) == Some(p)
    ensures p < |t| && ExtractBalancedBraces(t, escapes) == Some(Braced(t[1..p], t[p + 1..]))
  {
  }

  lemma BracedQuotedScan(t: String, h: String, q: char, v: String, rest: String, escapes: bool)
    requires t == "{" + (h + [q] + v + [q]) + "}" + rest
    requires forall m :: 0 <= m < |h| ==> !IsQuote(h[m]) && h[m] != '{' && h[m] != '}'
    requires IsQuote(q) && q !in v
    requires escapes ==> v == [] || v[|v| - 1] != '\\'
    requires rest == [] || !IsSpace(rest[|rest| - 1])
    ensures Strip(t) == t && StartsWith(t, "{")
    ensures ClosingFrom(t, 0, Unquoted, 0, '{', '}', escapes) == Some(|h| + |v| + 3)
  {
    var inner := h + [q] + v + [q];
    var n := |h| + 1;
    var e := n + |v| + 1;
    assert |inner| == e;
    StripTrimmed(t);
    forall m | 1 <= m < n ensures !IsQuote(t[m]) && t[m] != '{' && t[m] != '}' {
      assert t[m] == inner[m - 1] == h[m - 1];
    }
    forall m | n + 1 <= m < e ensures t[m] != q {
      assert t[m] == inner[m - 1] == v[m - n - 1];
    }
    assert t[n] == inner[n - 1] == q;
    assert t[e] == inner[e - 1] == q;
    if escapes {
      if v != [] {
        assert t[e - 1] == inner[e - 2] == v[|v| - 1];
      } else {
        assert t[e - 1] == q;
      }
    }
    assert t[e + 1] == '}';
    ClosingAfterQuoted(t, n, e, q, escapes);
  }

  // ---------------------------------------------------------------------------
  // Quote-aware splitting
  // ---------------------------------------------------------------------------

  /**
    The character at `k` is a delimiter at which the split cuts: it is `d`, the
    scan is outside quotes and, when parentheses are tracked, `d` is not a
    parenthesis and the parenthesis depth is zero.
   */
  predicate SplitsAt(s: String, k: nat, d: char, escapes: bool, parens: bool)
    requires k < |s|
  {
    var sc := ScanTo(s, 0, k, '(', ')', escapes);
    sc.quote.Unquoted? && !IsQuote(s[k]) && s[k] == d
    && (parens ==> s[k] != '(' && s[k] != ')' && sc.depth == 0)
  }

  /** After reading `s[..k]`: the parts already cut off and the part being built. */
  function SplitPrefix(s: String, k: nat, d: char, escapes: bool, parens: bool): (String, seq<String>)
    requires k <= |s|
  {
    if k == 0 then ([], [])
    else
      var (cur, done) := SplitPrefix(s, k - 1, d, escapes, parens);
      if SplitsAt(s, k - 1, d, escapes, parens) then ([], done + [cur]) else (cur + [s[k - 1]], done)
  }

  /** The parts of a split; a final empty part is dropped. */
  function Split(s: String, d: char, escapes: bool, parens: bool): seq<String>
  {
    var (cur, done) := SplitPrefix(s, |s|, d, escapes, parens);
    if cur == [] then done else done + [cur]
  }

  /** The parts cut so far, with the part being built, join back to the prefix read. */
  lemma {:induction false} SplitPrefixRejoins(s: String, k: nat, d: char, escapes: bool, parens: bool)
    requires k <= |s|
    ensures var (cur, done) := SplitPrefix(s, k, d, escapes, parens); Join(done + [cur], [d]) == s[..k]
    ensures k > 0 ==> (SplitPrefix(s, k, d, escapes, parens).0 == [] <==> SplitsAt(s, k - 1, d, escapes, parens))
  {
    if k > 0 {
      var (cur, done) := SplitPrefix(s, k - 1, d, escapes, parens);
      SplitPrefixRejoins(s, k - 1, d, escapes, parens);
      assert s[..k] == s[..k - 1] + [s[k - 1]];
      if SplitsAt(s, k - 1, d, escapes, parens) {
        JoinAppend(done + [cur], [], [d]);
      } else if done == [] {
        assert [cur + [s[k - 1]]] == [] + [cur + [s[k - 1]]];
      } else {
        JoinAppend(done, cur, [d]);
        JoinAppend(done, cur + [s[k - 1]], [d]);
      }
    }
  }

  /**
    Joining the parts with the delimiter gives the text back, except that the
    final empty part, after a trailing cut, was dropped.
   */
  lemma SplitRejoins(s: String, d: char, escapes: bool, parens: bool)
    ensures s != [] && SplitsAt(s, |s| - 1, d, escapes, parens) ==> Join(Split(s, d, escapes, parens), [d]) + [d] == s
    ensures !(s != [] && SplitsAt(s, |s| - 1, d, escapes, parens)) ==> Join(Split(s, d, escapes, parens), [d]) == s
  {
    var (cur, done) := SplitPrefix(s, |s|, d, escapes, parens);
    SplitPrefixRejoins(s, |s|, d, escapes, parens);
    assert s[..|s|] == s;
    if cur == [] && done != [] {
      JoinAppend(done, [], [d]);
    }
  }

  /** No cut while no delimiter is eligible: the prefix read is all one part. */
  lemma {:induction false} NoCutOnePart(s: String, k: nat, d: char, escapes: bool, parens: bool)
    requires k <= |s|
    requires forall j :: 0 <= j < k ==> !SplitsAt(s, j, d, escapes, parens)
    ensures SplitPrefix(s, k, d, escapes, parens) == (s[..k], [])
  {
    if k > 0 {
      NoCutOnePart(s, k - 1, d, escapes, parens);
      assert s[..k] == s[..k - 1] + [s[k - 1]];
    }
  }

  /** A text with no eligible delimiter is not split: delimiters in quotes (or parentheses) protect. */
  lemma SplitWithoutCut(s: String, d: char, escapes: bool, parens: bool)
    requires s != []
    requires forall j :: 0 <= j < |s| ==> !SplitsAt(s, j, d, escapes, parens)
    ensures Split(s, d, escapes, parens) == [s]
  {
    NoCutOnePart(s, |s|, d, escapes, parens);
    assert s[..|s|] == s;
  }

  /** A text that does not contain the delimiter at all is one part. */
  lemma SplitWithoutDelimiter(s: String, d: char, escapes: bool, parens: bool)
    requires s != [] && d !in s
    ensures Split(s, d, escapes, parens) == [s]
  {
    SplitWithoutCut(s, d, escapes, parens);
  }

  /** `smart_split`: split on `delimiter` outside quotes and parentheses; a backslash keeps a literal open. */
  method SmartSplit(text: String, delimiter: char) returns (result: seq<String>)
    ensures result == Split(text, delimiter, true, true)
    ensures text != [] && SplitsAt(text, |text| - 1, delimiter, true, true) ==> Join(result, [delimiter]) + [delimiter] == text
    ensures !(text != [] && SplitsAt(text, |text| - 1, delimiter, true, true)) ==> Join(result, [delimiter]) == text
  {
    SplitRejoins(text, delimiter, true, true);
    result := [];
    var currentPart := "";
    var quote := Unquoted;
    var parenDepth := 0;
    var i := 0;
    while i < |text|
      invariant 0 <= i <= |text|
      invariant SplitPrefix(text, i, delimiter, true, true) == (currentPart, result)
      invariant ScanTo(text, 0, i, '(', ')', true) == Scan(quote, parenDepth)
    {
      var c := text[i];
      if quote.Unquoted? && IsQuote(c) {
        quote := Quoted(c);
        currentPart := currentPart + [c];
      } else if quote.Quoted? && c == quote.q && (i == 0 || text[i - 1] != '\\') {
        quote := Unquoted;
        currentPart := currentPart + [c];
      } else if quote.Unquoted? && c == '(' {
        parenDepth := parenDepth + 1;
        currentPart := currentPart + [c];
      } else if quote.Unquoted? && c == ')' {
        parenDepth := parenDepth - 1;
        currentPart := currentPart + [c];
      } else if quote.Unquoted? && parenDepth == 0 && c == delimiter {
        result := result + [currentPart];
        currentPart := "";
      } else {
        currentPart := currentPart + [c];
      }
      i := i + 1;
    }
    if currentPart != [] {
      result := result + [currentPart];
    }
  }
}
